/**
 * The cached configuration snapshot. Readers load a generation counter and a cached snapshot
 * without a lock and rebuild the snapshot under one, while the store's event processor commits
 * batches, bumps the counter and acknowledges, each at its own time.
 */
module SnapshotCache {
  import opened Basics
  import opened Keys
  import opened ConfigStore

  type Reader = nat

  /** What a snapshot is built from: the rows of the snapshot's buckets. */
  datatype Setup = Setup(schema: Schema, buckets: set<string>) {
    /** Every bucket of a snapshot is one whose changes bump the generation. */
    predicate Sound() {
      buckets <= schema.httpBuckets
    }

    function View(rows: Rows): Rows {
      map key | key in rows && key.bucket in buckets :: rows[key]
    }

    /** A batch that does not bump the generation leaves the snapshot's rows as they are. */
    lemma UntouchedView(rows: Rows, parsed: seq<ParsedMutation>, options: BatchOptions)
      requires Sound() && !Store.Touches(parsed, options, schema.httpBuckets)
      ensures View(schema.Committed(rows, parsed, options)) == View(rows)
    {
      LastMutationsMembers(parsed);
      forall key: ResourceKey | key.bucket in buckets
        ensures var after := schema.Committed(rows, parsed, options);
          (key in after <==> key in rows) && (key in rows ==> after[key] == rows[key])
      {
        ApplyAllRow(rows, parsed, key);
      }
    }
  }

  /** The buckets the gateway builds its snapshot from, and those whose changes bump the generation. */
  function SnapshotBuckets(): set<string> {
    {"routes", "global_rules", "plugin_metadata", "services", "upstreams", "plugin_configs", "ssls", "plugins"}
  }

  function ReloadBuckets(): set<string> {
    {"routes", "services", "upstreams", "global_rules", "plugin_configs", "plugin_metadata", "ssls", "secrets", "protos", "plugins"}
  }

  lemma GatewayIsSound(schema: Schema)
    requires schema.httpBuckets == ReloadBuckets()
    ensures Setup(schema, SnapshotBuckets()).Sound()
  {
  }

  datatype Snapshot = Snapshot(generation: nat, rows: Rows)

  /** Where a call of GetConfigSnapshot stands; `acked` is what was acknowledged when it began. */
  datatype Pc =
    | LoadGeneration(acked: nat)
    | LoadCached(acked: nat, generation: nat)
    | Lock(acked: nat)
    | Reload(acked: nat)
    | ReloadCached(acked: nat, generation: nat)
    | Build(acked: nat, generation: nat)
    | Recheck(acked: nat, snapshot: Snapshot)
    | Publish(acked: nat, snapshot: Snapshot)
    | Returned(acked: nat, snapshot: Snapshot)
    | Failed(acked: nat)

  /** Where the event processor stands with its current batch. */
  datatype Writer = Idle | Bumping | Acknowledging

  /**
   * `history` holds every committed state, `acked` the index of the last one acknowledged, and
   * `began` the index of the last one there was when each generation began.
   */
  datatype State = State(
    history: seq<Rows>,
    generation: nat,
    began: seq<nat>,
    acked: nat,
    writer: Writer,
    cached: Option<Snapshot>,
    mu: Option<Reader>,
    readers: map<Reader, Pc>
  )

  function Init(rows: Rows): State {
    State([rows], 0, [0], 0, Idle, None, None, map[])
  }

  datatype Action =
    | Commit(parsed: seq<ParsedMutation>, options: BatchOptions)
    | Bump
    | Acknowledge
    | Refuse
    | Call(r: Reader)
    | Step(r: Reader)
    | BuildFails(r: Reader)

  predicate Enabled(s: State, a: Action) {
    && s.history != []
    && match a
       case Commit(_, _) => s.writer.Idle?
       case Bump => s.writer.Bumping?
       case Acknowledge | Refuse => s.writer.Acknowledging?
       case Call(r) => r !in s.readers
       case Step(r) => r in s.readers && !s.readers[r].Returned? && !s.readers[r].Failed? && (s.readers[r].Lock? ==> s.mu.None?)
       case BuildFails(r) => r in s.readers && s.readers[r].Build?
  }

  function Last(s: State): Rows
    requires s.history != []
  {
    s.history[|s.history| - 1]
  }

  function IsCurrent(cached: Option<Snapshot>, generation: nat): bool {
    cached.Some? && cached.value.generation == generation
  }

  /** One atomic operation of a reader; the read of all rows is one transaction. */
  function ReaderStep(setup: Setup, s: State, r: Reader): State
    requires Enabled(s, Step(r))
  {
    match s.readers[r]
    case LoadGeneration(acked) => s.(readers := s.readers[r := LoadCached(acked, s.generation)])
    case LoadCached(acked, g) =>
      s.(readers := s.readers[r := if IsCurrent(s.cached, g) then Returned(acked, s.cached.value) else Lock(acked)])
    case Lock(acked) => s.(mu := Some(r), readers := s.readers[r := Reload(acked)])
    case Reload(acked) => s.(readers := s.readers[r := ReloadCached(acked, s.generation)])
    case ReloadCached(acked, g) =>
      if IsCurrent(s.cached, g) then s.(mu := None, readers := s.readers[r := Returned(acked, s.cached.value)])
      else s.(readers := s.readers[r := Build(acked, g)])
    case Build(acked, g) => s.(readers := s.readers[r := Recheck(acked, Snapshot(g, setup.View(Last(s))))])
    case Recheck(acked, snapshot) =>
      s.(readers := s.readers[r := if s.generation != snapshot.generation then Reload(acked) else Publish(acked, snapshot)])
    case Publish(acked, snapshot) => s.(cached := Some(snapshot), mu := None, readers := s.readers[r := Returned(acked, snapshot)])
    case _ => s
  }

  function Next(setup: Setup, s: State, a: Action): State
    requires Enabled(s, a)
  {
    match a
    case Commit(parsed, options) =>
      s.(history := s.history + [setup.schema.Committed(Last(s), parsed, options)],
         writer := if Store.Touches(parsed, options, setup.schema.httpBuckets) then Bumping else Acknowledging)
    case Bump => s.(generation := s.generation + 1, began := s.began + [|s.history| - 1], writer := Acknowledging)
    case Acknowledge => s.(acked := |s.history| - 1, writer := Idle)
    case Refuse => s.(writer := Idle)
    case Call(r) => s.(readers := s.readers[r := LoadGeneration(s.acked)])
    case Step(r) => ReaderStep(setup, s, r)
    case BuildFails(r) => s.(mu := None, readers := s.readers[r := Failed(s.readers[r].acked)])
  }

  // ----- the invariant -----

  ghost predicate Shape(s: State) {
    && s.acked < |s.history| && |s.began| == s.generation + 1
    && (forall g :: 0 <= g < |s.began| ==> s.began[g] < |s.history|)
    && (forall g, h :: 0 <= g <= h < |s.began| ==> s.began[g] <= s.began[h])
  }

  /** Since the current generation began, no committed state but one waiting to be counted differs in its view. */
  ghost predicate Settled(setup: Setup, s: State)
    requires Shape(s)
  {
    forall i, j :: s.began[s.generation] <= i < j < |s.history| - (if s.writer.Bumping? then 1 else 0) ==>
      setup.View(s.history[i]) == setup.View(s.history[j])
  }

  /** Whatever is read under a generation is at least as new as a given state, or looks the same; the next began no earlier. */
  ghost predicate Covers(setup: Setup, s: State, g: nat, a: nat)
    requires Shape(s)
  {
    && g <= s.generation && a < |s.history| && (g < s.generation ==> a <= s.began[g + 1])
    && forall v :: s.began[g] <= v < |s.history| ==> v >= a || setup.View(s.history[v]) == setup.View(s.history[a])
  }

  /** The snapshot shows a state committed no earlier than its generation began. */
  ghost predicate Genuine(setup: Setup, s: State, snapshot: Snapshot)
    requires Shape(s)
  {
    && snapshot.generation <= s.generation
    && exists v :: s.began[snapshot.generation] <= v < |s.history| && snapshot.rows == setup.View(s.history[v])
  }

  /** Genuine, and read before the next generation began: what the second look at the counter makes sure of. */
  ghost predicate Stamped(setup: Setup, s: State, snapshot: Snapshot)
    requires Shape(s)
  {
    && snapshot.generation <= s.generation
    && exists v :: s.began[snapshot.generation] <= v < |s.history| && snapshot.rows == setup.View(s.history[v])
         && (snapshot.generation < s.generation ==> v <= s.began[snapshot.generation + 1])
  }

  /** Rows are those of a committed state in the snapshot's buckets, all of them and no other. */
  ghost predicate Shows(setup: Setup, rows: Rows, committed: Rows) {
    forall key ::
      && (key in rows <==> key.bucket in setup.buckets && key in committed)
      && (key in rows ==> rows[key] == committed[key])
  }

  /**
   * The snapshot shows one committed state that includes every batch up to the given one, and that
   * was the last committed state at some time when the counter stood at the snapshot's generation.
   */
  ghost predicate IsFresh(setup: Setup, s: State, acked: nat, snapshot: Snapshot)
    requires Shape(s)
  {
    && snapshot.generation <= s.generation
    && exists v :: acked <= v < |s.history| && Shows(setup, snapshot.rows, s.history[v])
         && s.began[snapshot.generation] <= v && (snapshot.generation < s.generation ==> v <= s.began[snapshot.generation + 1])
  }

  ghost predicate ReaderInv(setup: Setup, s: State, pc: Pc)
    requires Shape(s)
  {
    match pc
    case LoadCached(a, g) => Covers(setup, s, g, a)
    case ReloadCached(a, g) => Covers(setup, s, g, a)
    case Build(a, g) => Covers(setup, s, g, a)
    case Recheck(a, snapshot) => Covers(setup, s, snapshot.generation, a) && Genuine(setup, s, snapshot)
    case Publish(a, snapshot) => Covers(setup, s, snapshot.generation, a) && Stamped(setup, s, snapshot)
    case Returned(a, snapshot) => IsFresh(setup, s, a, snapshot)
    case _ => Covers(setup, s, s.generation, pc.acked)
  }

  ghost predicate Inv(setup: Setup, s: State) {
    && Shape(s) && Settled(setup, s) && Covers(setup, s, s.generation, s.acked)
    && (s.cached.Some? ==> Stamped(setup, s, s.cached.value))
    && (forall r :: r in s.readers ==> ReaderInv(setup, s, s.readers[r]))
  }

  lemma LaterCovers(setup: Setup, s: State, g: nat, h: nat, a: nat)
    requires Shape(s) && Covers(setup, s, g, a) && g <= h <= s.generation
    ensures Covers(setup, s, h, a)
  {
  }

  /** A stamped snapshot shows the given state or a later one: if it was read earlier, that state looks the same. */
  lemma StampedIsFresh(setup: Setup, s: State, a: nat, snapshot: Snapshot)
    requires Shape(s) && Stamped(setup, s, snapshot) && Covers(setup, s, snapshot.generation, a)
    ensures IsFresh(setup, s, a, snapshot)
  {
    var v :| s.began[snapshot.generation] <= v < |s.history| && snapshot.rows == setup.View(s.history[v])
          && (snapshot.generation < s.generation ==> v <= s.began[snapshot.generation + 1]);
    ViewShows(setup, s.history[v]);
    if v < a {
      assert snapshot.rows == setup.View(s.history[a]);
      ViewShows(setup, s.history[a]);
    }
  }

  lemma ViewShows(setup: Setup, committed: Rows)
    ensures Shows(setup, setup.View(committed), committed)
  {
  }

  /** History and generations only grow. */
  ghost predicate Extends(s: State, n: State) {
    && |s.history| <= |n.history| && s.history == n.history[..|s.history|]
    && s.generation <= n.generation && |s.began| <= |n.began| && s.began == n.began[..|s.began|]
  }

  /** At most one generation more, begun with the last committed state. */
  ghost predicate Begins(s: State, n: State)
    requires Shape(s) && Shape(n)
  {
    n.generation == s.generation || (n.generation == s.generation + 1 && n.began[n.generation] == |s.history| - 1)
  }

  lemma CoversExtends(setup: Setup, s: State, n: State, g: nat, a: nat)
    requires Shape(s) && Shape(n) && Extends(s, n) && Begins(s, n) && Covers(setup, s, g, a)
    ensures Covers(setup, n, g, a)
  {
    assert n.began[g] == s.began[g] && (g < s.generation ==> n.began[g + 1] == s.began[g + 1]);
    forall v | n.began[g] <= v < |n.history|
      ensures v >= a || setup.View(n.history[v]) == setup.View(n.history[a])
    {
      if v < a {
        assert n.history[v] == s.history[v] && n.history[a] == s.history[a];
      }
    }
  }

  lemma GenuineExtends(setup: Setup, s: State, n: State, snapshot: Snapshot)
    requires Shape(s) && Shape(n) && Extends(s, n) && Genuine(setup, s, snapshot)
    ensures Genuine(setup, n, snapshot)
  {
    var v :| s.began[snapshot.generation] <= v < |s.history| && snapshot.rows == setup.View(s.history[v]);
    assert n.history[v] == s.history[v] && n.began[snapshot.generation] == s.began[snapshot.generation];
  }

  lemma StampedExtends(setup: Setup, s: State, n: State, snapshot: Snapshot)
    requires Shape(s) && Shape(n) && Extends(s, n) && Stamped(setup, s, snapshot)
    requires Begins(s, n)
    ensures Stamped(setup, n, snapshot)
  {
    var v :| s.began[snapshot.generation] <= v < |s.history| && snapshot.rows == setup.View(s.history[v])
          && (snapshot.generation < s.generation ==> v <= s.began[snapshot.generation + 1]);
    assert n.history[v] == s.history[v] && n.began[snapshot.generation] == s.began[snapshot.generation];
    if snapshot.generation < s.generation {
      assert n.began[snapshot.generation + 1] == s.began[snapshot.generation + 1];
    }
  }

  lemma FreshExtends(setup: Setup, s: State, n: State, a: nat, snapshot: Snapshot)
    requires Shape(s) && Shape(n) && Extends(s, n) && Begins(s, n) && IsFresh(setup, s, a, snapshot)
    ensures IsFresh(setup, n, a, snapshot)
  {
    var v :| a <= v < |s.history| && Shows(setup, snapshot.rows, s.history[v])
          && s.began[snapshot.generation] <= v && (snapshot.generation < s.generation ==> v <= s.began[snapshot.generation + 1]);
    assert n.history[v] == s.history[v] && n.began[snapshot.generation] == s.began[snapshot.generation];
    if snapshot.generation < s.generation {
      assert n.began[snapshot.generation + 1] == s.began[snapshot.generation + 1];
    }
  }

  lemma ReaderInvExtends(setup: Setup, s: State, n: State, pc: Pc)
    requires Shape(s) && Shape(n) && Extends(s, n) && ReaderInv(setup, s, pc)
    requires Begins(s, n)
    ensures ReaderInv(setup, n, pc)
  {
    match pc
    case LoadCached(a, g) => CoversExtends(setup, s, n, g, a);
    case ReloadCached(a, g) => CoversExtends(setup, s, n, g, a);
    case Build(a, g) => CoversExtends(setup, s, n, g, a);
    case Recheck(a, snapshot) =>
      CoversExtends(setup, s, n, snapshot.generation, a);
      GenuineExtends(setup, s, n, snapshot);
    case Publish(a, snapshot) =>
      CoversExtends(setup, s, n, snapshot.generation, a);
      StampedExtends(setup, s, n, snapshot);
    case Returned(a, snapshot) => FreshExtends(setup, s, n, a, snapshot);
    case _ =>
      CoversExtends(setup, s, n, s.generation, pc.acked);
      LaterCovers(setup, n, s.generation, n.generation, pc.acked);
  }

  /** The event processor's steps keep the views of the current generation equal. */
  lemma WriterKeepsSettled(setup: Setup, s: State, a: Action)
    requires setup.Sound() && Inv(setup, s) && Enabled(s, a) && (a.Commit? || a.Bump? || a.Acknowledge? || a.Refuse?)
    ensures Shape(Next(setup, s, a)) && Extends(s, Next(setup, s, a)) && Settled(setup, Next(setup, s, a))
  {
    if a.Commit? && !Store.Touches(a.parsed, a.options, setup.schema.httpBuckets) {
      setup.UntouchedView(Last(s), a.parsed, a.options);
    }
  }

  lemma WriterKeepsCover(setup: Setup, s: State, a: Action)
    requires setup.Sound() && Inv(setup, s) && Enabled(s, a) && (a.Commit? || a.Bump? || a.Acknowledge? || a.Refuse?)
    requires Shape(Next(setup, s, a)) && Extends(s, Next(setup, s, a)) && Settled(setup, Next(setup, s, a))
    ensures var n := Next(setup, s, a); Covers(setup, n, n.generation, n.acked)
  {
    var n := Next(setup, s, a);
    CoversExtends(setup, s, n, s.generation, s.acked);
    LaterCovers(setup, n, s.generation, n.generation, s.acked);
  }

  lemma WriterKeepsInv(setup: Setup, s: State, a: Action)
    requires setup.Sound() && Inv(setup, s) && Enabled(s, a) && (a.Commit? || a.Bump? || a.Acknowledge? || a.Refuse?)
    ensures Inv(setup, Next(setup, s, a))
  {
    var n := Next(setup, s, a);
    WriterKeepsSettled(setup, s, a);
    WriterKeepsCover(setup, s, a);
    if s.cached.Some? {
      StampedExtends(setup, s, n, s.cached.value);
    }
    forall r | r in n.readers
      ensures ReaderInv(setup, n, n.readers[r])
    {
      ReaderInvExtends(setup, s, n, s.readers[r]);
    }
  }

  lemma BuiltIsGenuine(setup: Setup, s: State, g: nat)
    requires Shape(s) && g <= s.generation
    ensures Genuine(setup, s, Snapshot(g, setup.View(Last(s))))
  {
    assert s.began[g] <= |s.history| - 1;
  }

  lemma RecheckedIsStamped(setup: Setup, s: State, snapshot: Snapshot)
    requires Shape(s) && Genuine(setup, s, snapshot) && snapshot.generation == s.generation
    ensures Stamped(setup, s, snapshot)
  {
  }

  /** What a reader knows after it has looked at the cache. */
  lemma CacheIsKnown(setup: Setup, s: State, a: nat, g: nat)
    requires Shape(s) && Covers(setup, s, g, a) && (s.cached.Some? ==> Stamped(setup, s, s.cached.value))
    ensures Covers(setup, s, s.generation, a)
    ensures IsCurrent(s.cached, g) ==> ReaderInv(setup, s, Returned(a, s.cached.value))
  {
    LaterCovers(setup, s, g, s.generation, a);
    if IsCurrent(s.cached, g) {
      StampedIsFresh(setup, s, a, s.cached.value);
    }
  }

  /** What a builder knows after its second look at the counter. */
  lemma RecheckIsKnown(setup: Setup, s: State, a: nat, snapshot: Snapshot)
    requires Shape(s) && Covers(setup, s, snapshot.generation, a) && Genuine(setup, s, snapshot)
    ensures Covers(setup, s, s.generation, a)
    ensures s.generation == snapshot.generation ==> Stamped(setup, s, snapshot)
  {
    LaterCovers(setup, s, snapshot.generation, s.generation, a);
    if s.generation == snapshot.generation {
      RecheckedIsStamped(setup, s, snapshot);
    }
  }

  /** What the moving reader knows after its step. */
  lemma ReaderMoves(setup: Setup, s: State, r: Reader)
    requires Shape(s) && Enabled(s, Step(r)) && ReaderInv(setup, s, s.readers[r])
    requires s.cached.Some? ==> Stamped(setup, s, s.cached.value)
    ensures ReaderInv(setup, s, ReaderStep(setup, s, r).readers[r])
  {
    match s.readers[r] {
      case LoadCached(a, g) => CacheIsKnown(setup, s, a, g);
      case ReloadCached(a, g) => CacheIsKnown(setup, s, a, g);
      case Build(a, g) => BuiltIsGenuine(setup, s, g);
      case Recheck(a, snapshot) => RecheckIsKnown(setup, s, a, snapshot);
      case Publish(a, snapshot) => StampedIsFresh(setup, s, a, snapshot);
      case _ =>
    }
  }

  lemma CacheMoves(setup: Setup, s: State, r: Reader)
    requires Inv(setup, s) && Enabled(s, Step(r))
    ensures var n := ReaderStep(setup, s, r);
      n.cached.Some? ==> Stamped(setup, s, n.cached.value)
  {
    assert ReaderInv(setup, s, s.readers[r]);
  }

  /** Steps that leave the history and the generations alone. */
  lemma QuietKeepsInv(setup: Setup, s: State, n: State, r: Reader)
    requires Inv(setup, s) && r in n.readers && ReaderInv(setup, s, n.readers[r])
    requires n == s.(readers := n.readers, cached := n.cached, mu := n.mu)
    requires n.cached.Some? ==> Stamped(setup, s, n.cached.value)
    requires forall q :: q in n.readers && q != r ==> q in s.readers && n.readers[q] == s.readers[q]
    ensures Inv(setup, n)
  {
    assert Shape(n) && Extends(s, n);
    SameReaders(setup, s, n, r);
    ReaderInvExtends(setup, s, n, n.readers[r]);
    CoversExtends(setup, s, n, s.generation, s.acked);
    if n.cached.Some? {
      StampedExtends(setup, s, n, n.cached.value);
    }
  }

  lemma SameReaders(setup: Setup, s: State, n: State, r: Reader)
    requires Inv(setup, s) && Shape(n) && n.history == s.history && n.began == s.began && n.generation == s.generation
    requires forall q :: q in n.readers && q != r ==> q in s.readers && n.readers[q] == s.readers[q]
    ensures forall q :: q in n.readers && q != r ==> ReaderInv(setup, n, n.readers[q])
  {
    forall q | q in n.readers && q != r
      ensures ReaderInv(setup, n, n.readers[q])
    {
      ReaderInvExtends(setup, s, n, s.readers[q]);
    }
  }

  lemma CallKeepsInv(setup: Setup, s: State, r: Reader)
    requires Inv(setup, s) && Enabled(s, Call(r))
    ensures Inv(setup, Next(setup, s, Call(r)))
  {
    QuietKeepsInv(setup, s, Next(setup, s, Call(r)), r);
  }

  lemma ReaderKeepsInv(setup: Setup, s: State, r: Reader)
    requires Inv(setup, s) && Enabled(s, Step(r))
    ensures Inv(setup, Next(setup, s, Step(r)))
  {
    assert ReaderInv(setup, s, s.readers[r]);
    ReaderMoves(setup, s, r);
    CacheMoves(setup, s, r);
    QuietKeepsInv(setup, s, ReaderStep(setup, s, r), r);
  }

  lemma FailureKeepsInv(setup: Setup, s: State, r: Reader)
    requires Inv(setup, s) && Enabled(s, BuildFails(r))
    ensures Inv(setup, Next(setup, s, BuildFails(r)))
  {
    assert ReaderInv(setup, s, s.readers[r]);
    LaterCovers(setup, s, s.readers[r].generation, s.generation, s.readers[r].acked);
    QuietKeepsInv(setup, s, Next(setup, s, BuildFails(r)), r);
  }

  lemma StepKeepsInv(setup: Setup, s: State, a: Action)
    requires setup.Sound() && Inv(setup, s) && Enabled(s, a)
    ensures Inv(setup, Next(setup, s, a))
  {
    match a {
      case Call(r) => CallKeepsInv(setup, s, r);
      case Step(r) => ReaderKeepsInv(setup, s, r);
      case BuildFails(r) => FailureKeepsInv(setup, s, r);
      case _ => WriterKeepsInv(setup, s, a);
    }
  }

  // ----- runs -----

  ghost predicate IsRun(setup: Setup, states: seq<State>, actions: seq<Action>) {
    && |states| == |actions| + 1
    && (exists rows :: states[0] == Init(rows))
    && forall i :: 0 <= i < |actions| ==> Enabled(states[i], actions[i]) && states[i + 1] == Next(setup, states[i], actions[i])
  }

  lemma {:induction false} RunKeepsInv(setup: Setup, states: seq<State>, actions: seq<Action>, i: nat)
    requires setup.Sound() && IsRun(setup, states, actions) && i < |states|
    ensures Inv(setup, states[i])
  {
    if i > 0 {
      var j := i - 1;
      RunKeepsInv(setup, states, actions, j);
      assert states[j + 1] == Next(setup, states[j], actions[j]);
      StepKeepsInv(setup, states[j], actions[j]);
    }
  }

  /**
   * Snapshot freshness. In every interleaving with the event processor, the rows of a returned
   * snapshot are those of one committed state. That state includes every batch which was
   * acknowledged before the call began, and it was the last committed one at some time when the
   * counter stood at the snapshot's generation.
   */
  lemma SnapshotIsFresh(setup: Setup, states: seq<State>, actions: seq<Action>, call: nat, i: nat, r: Reader)
    requires setup.Sound() && IsRun(setup, states, actions) && call < i < |states| && actions[call] == Call(r)
    requires r in states[i].readers && states[i].readers[r].Returned?
    ensures Shape(states[i]) && IsFresh(setup, states[i], states[call].acked, states[i].readers[r].snapshot)
    ensures forall k :: 0 <= k < call && actions[k] == Acknowledge ==> |states[k].history| - 1 <= states[call].acked
  {
    forall k | 0 <= k < call && actions[k] == Acknowledge
      ensures |states[k].history| - 1 <= states[call].acked
    {
      AckedStays(setup, states, actions, k, call);
    }
    RunKeepsInv(setup, states, actions, i);
    assert ReaderInv(setup, states[i], states[i].readers[r]);
    CallRemembers(setup, states, actions, call, i, r);
  }

  /** What was acknowledged stays acknowledged. */
  lemma {:induction false} AckedStays(setup: Setup, states: seq<State>, actions: seq<Action>, k: nat, i: nat)
    requires setup.Sound() && IsRun(setup, states, actions) && k < i < |states| && actions[k] == Acknowledge
    ensures |states[k].history| - 1 <= states[i].acked
    decreases i
  {
    var j := i - 1;
    assert Enabled(states[j], actions[j]) && states[j + 1] == Next(setup, states[j], actions[j]);
    RunKeepsInv(setup, states, actions, j);
    if k < j {
      AckedStays(setup, states, actions, k, j);
    }
  }

  lemma {:induction false} CallRemembers(setup: Setup, states: seq<State>, actions: seq<Action>, call: nat, i: nat, r: Reader)
    requires IsRun(setup, states, actions) && call < i < |states| && actions[call] == Call(r)
    ensures r in states[i].readers && states[i].readers[r].acked == states[call].acked
  {
    var j := i - 1;
    assert Enabled(states[j], actions[j]) && states[j + 1] == Next(setup, states[j], actions[j]);
    if call < j {
      CallRemembers(setup, states, actions, call, j, r);
    }
  }

  /** The same rows in every run: states that were committed once stay as they were. */
  lemma {:induction false} HistoryIsKept(setup: Setup, states: seq<State>, actions: seq<Action>, i: nat, j: nat)
    requires IsRun(setup, states, actions) && i <= j < |states|
    ensures |states[i].history| <= |states[j].history| && states[j].history[..|states[i].history|] == states[i].history
    decreases j
  {
    if i < j {
      var k := j - 1;
      HistoryIsKept(setup, states, actions, i, k);
      assert Enabled(states[k], actions[k]) && states[k + 1] == Next(setup, states[k], actions[k]);
      assert states[j].history[..|states[k].history|] == states[k].history;
    }
  }

  // ----- one builder at a time -----

  predicate HasMutex(pc: Pc) {
    pc.Reload? || pc.ReloadCached? || pc.Build? || pc.Recheck? || pc.Publish?
  }

  /** The generation that the mutex's owner will stamp on what it publishes, once it has loaded one. */
  function Intends(pc: Pc): Option<nat> {
    match pc
    case ReloadCached(_, g) => Some(g)
    case Build(_, g) => Some(g)
    case Recheck(_, snapshot) => Some(snapshot.generation)
    case Publish(_, snapshot) => Some(snapshot.generation)
    case _ => None
  }

  /** The readers past the mutex are its owner alone, and what it will publish is no older than what is cached. */
  ghost predicate Exclusive(s: State) {
    && (forall r :: r in s.readers ==> (HasMutex(s.readers[r]) <==> s.mu == Some(r)))
    && (s.mu.Some? ==> s.mu.value in s.readers)
    && (s.cached.Some? ==> s.cached.value.generation <= s.generation)
    && (forall r :: r in s.readers && HasMutex(s.readers[r]) && Intends(s.readers[r]).Some? ==>
          && Intends(s.readers[r]).value <= s.generation
          && (s.cached.Some? ==> s.cached.value.generation <= Intends(s.readers[r]).value))
  }

  lemma ReaderKeepsExclusive(setup: Setup, s: State, r: Reader)
    requires Exclusive(s) && Enabled(s, Step(r))
    ensures var n := ReaderStep(setup, s, r);
      Exclusive(n) && (s.cached.Some? ==> n.cached.Some? && s.cached.value.generation <= n.cached.value.generation)
  {
    var n := ReaderStep(setup, s, r);
    assert n.readers == s.readers[r := n.readers[r]] && n.generation == s.generation;
    assert HasMutex(s.readers[r]) <==> s.mu == Some(r);
  }

  lemma StepKeepsExclusive(setup: Setup, s: State, a: Action)
    requires Exclusive(s) && Enabled(s, a)
    ensures Exclusive(Next(setup, s, a))
    ensures s.cached.Some? ==> Next(setup, s, a).cached.Some? && s.cached.value.generation <= Next(setup, s, a).cached.value.generation
  {
    match a {
      case Step(r) => ReaderKeepsExclusive(setup, s, r);
      case BuildFails(r) => assert s.mu == Some(r);
      case _ =>
    }
  }

  lemma {:induction false} RunIsExclusive(setup: Setup, states: seq<State>, actions: seq<Action>, i: nat)
    requires IsRun(setup, states, actions) && i < |states|
    ensures Exclusive(states[i])
  {
    if i > 0 {
      var j := i - 1;
      RunIsExclusive(setup, states, actions, j);
      assert Enabled(states[j], actions[j]) && states[j + 1] == Next(setup, states[j], actions[j]);
      StepKeepsExclusive(setup, states[j], actions[j]);
    }
  }

  /**
   * In every interleaving one reader at most is building, and the cached snapshot is never
   * replaced by one of an older generation.
   */
  lemma {:induction false} CacheNeverRegresses(setup: Setup, states: seq<State>, actions: seq<Action>, i: nat, j: nat, q: Reader, r: Reader)
    requires IsRun(setup, states, actions) && i <= j < |states|
    ensures q in states[j].readers && r in states[j].readers && states[j].readers[q].Build? && states[j].readers[r].Build? ==> q == r
    ensures states[i].cached.Some? ==>
              states[j].cached.Some? && states[i].cached.value.generation <= states[j].cached.value.generation
    decreases j
  {
    RunIsExclusive(setup, states, actions, j);
    if i < j {
      var k := j - 1;
      CacheNeverRegresses(setup, states, actions, i, k, q, r);
      RunIsExclusive(setup, states, actions, k);
      assert Enabled(states[k], actions[k]) && states[k + 1] == Next(setup, states[k], actions[k]);
      StepKeepsExclusive(setup, states[k], actions[k]);
    }
  }

  /** Whatever was returned is in the cache, unless a later generation is. */
  ghost predicate Caching(s: State) {
    forall r :: r in s.readers && s.readers[r].Returned? ==>
      s.cached.Some? && s.readers[r].snapshot.generation <= s.cached.value.generation
  }

  lemma StepKeepsCaching(setup: Setup, s: State, a: Action)
    requires Exclusive(s) && Caching(s) && Enabled(s, a)
    ensures Caching(Next(setup, s, a))
  {
    StepKeepsExclusive(setup, s, a);
    var n := Next(setup, s, a);
    forall r | r in n.readers && n.readers[r].Returned?
      ensures n.cached.Some? && n.readers[r].snapshot.generation <= n.cached.value.generation
    {
      if r in s.readers && s.readers[r].Returned? {
        assert s.cached.Some? && s.readers[r].snapshot.generation <= s.cached.value.generation;
      }
    }
  }

  /** In every interleaving a snapshot that was returned stays cached until a later one is. */
  lemma {:induction false} ReturnedIsCached(setup: Setup, states: seq<State>, actions: seq<Action>, i: nat)
    requires IsRun(setup, states, actions) && i < |states|
    ensures Caching(states[i])
  {
    if i > 0 {
      var j := i - 1;
      ReturnedIsCached(setup, states, actions, j);
      RunIsExclusive(setup, states, actions, j);
      assert Enabled(states[j], actions[j]) && states[j + 1] == Next(setup, states[j], actions[j]);
      StepKeepsCaching(setup, states[j], actions[j]);
    }
  }

  /** No deadlock: while a call has not ended, it or the owner of the mutex can move. */
  lemma ReaderProgresses(setup: Setup, states: seq<State>, actions: seq<Action>, i: nat, r: Reader)
    requires IsRun(setup, states, actions) && i < |states| && r in states[i].readers
    requires !states[i].readers[r].Returned? && !states[i].readers[r].Failed?
    ensures exists q :: Enabled(states[i], Step(q))
  {
    var s := states[i];
    HistoryIsKept(setup, states, actions, 0, i);
    RunIsExclusive(setup, states, actions, i);
    if s.mu.Some? {
      assert HasMutex(s.readers[s.mu.value]);
      assert Enabled(s, Step(s.mu.value));
    } else {
      assert Enabled(s, Step(r));
    }
  }

  /** How many operations a call has ahead of it, if the generation stands still. */
  function Ahead(pc: Pc): nat {
    match pc
    case LoadGeneration(_) => 8
    case LoadCached(_, _) => 7
    case Lock(_) => 6
    case Reload(_) => 5
    case ReloadCached(_, _) => 4
    case Build(_, _) => 3
    case Recheck(_, _) => 2
    case Publish(_, _) => 1
    case _ => 0
  }

  /** How many steps the event processor has ahead of it with its batch. */
  function Due(writer: Writer): nat {
    match writer
    case Idle => 0
    case Acknowledging => 1
    case Bumping => 2
  }

  /** A commit is followed by its bump, if it is one that counts, and by its acknowledgement or refusal. */
  lemma WriterIsNearer(setup: Setup, s: State, a: Action)
    requires Enabled(s, a)
    ensures a.Commit? ==> Next(setup, s, a).writer == if Store.Touches(a.parsed, a.options, setup.schema.httpBuckets) then Bumping else Acknowledging
    ensures a.Bump? || a.Acknowledge? || a.Refuse? ==> Due(Next(setup, s, a).writer) + 1 == Due(s.writer)
    ensures a.Call? || a.Step? || a.BuildFails? ==> Next(setup, s, a).writer == s.writer
  {
  }

  /** Every operation of a reader takes it nearer to its end, unless a batch was counted while it built. */
  lemma EveryStepIsNearer(setup: Setup, s: State, r: Reader)
    requires Enabled(s, Step(r))
    ensures var before, after := s.readers[r], ReaderStep(setup, s, r).readers[r];
      Ahead(after) < Ahead(before) || (before.Recheck? && before.snapshot.generation != s.generation)
  {
  }

  /** The committed states after some actions. */
  ghost function Replayed(setup: Setup, rows: Rows, actions: seq<Action>): (r: seq<Rows>)
    ensures r != []
  {
    if actions == [] then [rows]
    else
      var before, last := Replayed(setup, rows, actions[..|actions| - 1]), actions[|actions| - 1];
      if last.Commit? then before + [setup.schema.Committed(before[|before| - 1], last.parsed, last.options)] else before
  }

  /** The batches among some actions that touch a bucket whose changes count. */
  ghost function Counted(setup: Setup, actions: seq<Action>): nat {
    if actions == [] then 0
    else
      var before, last := Counted(setup, actions[..|actions| - 1]), actions[|actions| - 1];
      before + if last.Commit? && Store.Touches(last.parsed, last.options, setup.schema.httpBuckets) then 1 else 0
  }

  /** In every run the history is that of the batches. */
  lemma {:induction false} RunIsReplay(setup: Setup, states: seq<State>, actions: seq<Action>, i: nat)
    requires IsRun(setup, states, actions) && i < |states| && states[0].history != []
    ensures states[i].history == Replayed(setup, states[0].history[0], actions[..i])
  {
    if i > 0 {
      var j := i - 1;
      RunIsReplay(setup, states, actions, j);
      RunWrites(setup, states, actions, j);
      ReplayedNext(setup, states[0].history[0], actions, j);
    }
  }

  lemma ReplayedNext(setup: Setup, rows: Rows, actions: seq<Action>, j: nat)
    requires j < |actions|
    ensures var before := Replayed(setup, rows, actions[..j]);
      Replayed(setup, rows, actions[..j + 1])
        == if actions[j].Commit? then before + [setup.schema.Committed(before[|before| - 1], actions[j].parsed, actions[j].options)] else before
  {
    assert actions[..j + 1][..j] == actions[..j];
  }

  lemma RunWrites(setup: Setup, states: seq<State>, actions: seq<Action>, j: nat)
    requires IsRun(setup, states, actions) && j < |actions|
    ensures states[j].history != []
    ensures states[j + 1].history
         == if actions[j].Commit? then states[j].history + [setup.schema.Committed(Last(states[j]), actions[j].parsed, actions[j].options)]
            else states[j].history
  {
    assert Enabled(states[j], actions[j]) && states[j + 1] == Next(setup, states[j], actions[j]);
    StepWrites(setup, states[j], actions[j]);
  }

  /** And the counter counts those that touch one of its buckets. */
  lemma {:induction false} GenerationCounts(setup: Setup, states: seq<State>, actions: seq<Action>, i: nat)
    requires IsRun(setup, states, actions) && i < |states|
    ensures states[i].generation + (if states[i].writer.Bumping? then 1 else 0) == Counted(setup, actions[..i])
  {
    if i > 0 {
      var j := i - 1;
      GenerationCounts(setup, states, actions, j);
      assert Enabled(states[j], actions[j]) && states[j + 1] == Next(setup, states[j], actions[j]);
      StepWrites(setup, states[j], actions[j]);
      assert actions[..i][..j] == actions[..j] && actions[..i][j] == actions[j];
    }
  }

  /** What a step does to the history, and what it counts. */
  lemma StepWrites(setup: Setup, s: State, a: Action)
    requires Enabled(s, a)
    ensures var n := Next(setup, s, a);
      && n.history == (if a.Commit? then s.history + [setup.schema.Committed(Last(s), a.parsed, a.options)] else s.history)
      && n.generation + (if n.writer.Bumping? then 1 else 0)
           == s.generation + (if s.writer.Bumping? then 1 else 0)
                + if a.Commit? && Store.Touches(a.parsed, a.options, setup.schema.httpBuckets) then 1 else 0
  {
  }

  /** A call that finds the cached snapshot to be of the generation it has loaded returns it, with the mutex or without. */
  lemma CachedIsReturned(setup: Setup, states: seq<State>, actions: seq<Action>, k: nat, r: Reader, g: nat)
    requires IsRun(setup, states, actions) && k < |actions| && actions[k] == Step(r) && r in states[k].readers
    requires states[k].readers[r] == LoadCached(states[k].readers[r].acked, g) || states[k].readers[r] == ReloadCached(states[k].readers[r].acked, g)
    requires states[k].cached.Some? && states[k].cached.value.generation == g
    ensures r in states[k + 1].readers && states[k + 1].readers[r] == Returned(states[k].readers[r].acked, states[k].cached.value)
    ensures states[k + 1].mu != Some(r)
  {
    assert Enabled(states[k], actions[k]) && states[k + 1] == Next(setup, states[k], actions[k]);
    RunIsExclusive(setup, states, actions, k);
  }
}
