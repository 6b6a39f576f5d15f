/**
 * Shared clients of plugins: one registry mutex for finding and removing entries, one mutex in
 * each entry for creating and counting. Every critical section is one step, except that creating
 * a client keeps the entry's mutex from one step to the next.
 */
module SharedClients {
  import opened Basics

  type Thread = nat
  type Client = nat
  type Key = string

  datatype Entry = Entry(client: Option<Client>, refs: int, closed: bool, mu: Option<Thread>)

  /** What a goroutine does next with an entry it has found. */
  datatype Op =
    | LockEntry
    | Creating
    | CreateFailed
    | DropStale
    | Holding(client: Client)
    | Closing(client: Client)
    | Unregister

  datatype Pc = Lookup(key: Key) | At(e: nat, key: Key, op: Op) | Failed | Done

  /**
   * `created` counts the clients made so far, `closes` lists the calls of the close function, `keys`
   * the key each entry was made for, and `failures` the entries for which a creation has failed.
   */
  datatype State = State(
    registry: map<Key, nat>,
    entries: seq<Entry>,
    created: nat,
    closes: seq<Client>,
    threads: map<Thread, Pc>,
    keys: seq<Key>,
    failures: set<nat>
  )

  const Init := State(map[], [], 0, [], map[], [], {})
  const NewEntry := Entry(None, 0, false, None)

  datatype Action =
    | Acquire(t: Thread, key: Key)
    | Find(t: Thread)
    | Lock(t: Thread)
    | Create(t: Thread, ok: bool)
    | Forget(t: Thread)
    | Release(t: Thread)
    | Close(t: Thread)

  predicate IsAt(s: State, t: Thread) {
    t in s.threads && s.threads[t].At? && s.threads[t].e < |s.entries|
  }

  predicate Enabled(s: State, a: Action) {
    match a
    case Acquire(t, _) => t !in s.threads
    case Find(t) => t in s.threads && s.threads[t].Lookup?
    case Lock(t) => IsAt(s, t) && s.threads[t].op.LockEntry? && s.entries[s.threads[t].e].mu.None?
    case Create(t, _) => IsAt(s, t) && s.threads[t].op.Creating?
    case Forget(t) => IsAt(s, t) && (s.threads[t].op.CreateFailed? || s.threads[t].op.DropStale? || s.threads[t].op.Unregister?)
    case Release(t) => IsAt(s, t) && s.threads[t].op.Holding? && s.entries[s.threads[t].e].mu.None?
    case Close(t) => IsAt(s, t) && s.threads[t].op.Closing?
  }

  /** A step of a goroutine on its entry: the entry after it, and what the goroutine does next, if anything, with it. */
  datatype Effect = Effect(entry: Entry, op: Option<Op>)

  function LockEffect(entry: Entry, t: Thread): Effect {
    if entry.closed then Effect(entry, Some(DropStale))
    else match entry.client
      case None => Effect(entry.(mu := Some(t)), Some(Creating))
      case Some(client) => Effect(entry.(refs := entry.refs + 1), Some(Holding(client)))
  }

  function CreateEffect(entry: Entry, ok: bool, client: Client): Effect {
    if ok then Effect(entry.(client := Some(client), refs := entry.refs + 1, mu := None), Some(Holding(client)))
    else Effect(entry, Some(CreateFailed))
  }

  function ReleaseEffect(entry: Entry, client: Client): Effect {
    if entry.refs - 1 == 0 then Effect(entry.(refs := 0, closed := true), Some(Closing(client)))
    else Effect(entry.(refs := entry.refs - 1), None)
  }

  /** Deletes the registration of a key if it still names the entry. */
  function Removed(registry: map<Key, nat>, key: Key, e: nat): map<Key, nat> {
    if key in registry && registry[key] == e then registry - {key} else registry
  }

  function Apply(s: State, t: Thread, effect: Effect): State
    requires IsAt(s, t)
  {
    var At(e, key, _) := s.threads[t];
    s.(entries := s.entries[e := effect.entry],
       threads := s.threads[t := match effect.op case Some(op) => At(e, key, op) case None => Done])
  }

  function Next(s: State, a: Action): State
    requires Enabled(s, a)
  {
    match a
    case Acquire(t, key) => s.(threads := s.threads[t := Lookup(key)])
    case Find(t) =>
      var key := s.threads[t].key;
      if key in s.registry then s.(threads := s.threads[t := At(s.registry[key], key, LockEntry)])
      else s.(registry := s.registry[key := |s.entries|], entries := s.entries + [NewEntry], keys := s.keys + [key],
              threads := s.threads[t := At(|s.entries|, key, LockEntry)])
    case Lock(t) => Apply(s, t, LockEffect(s.entries[s.threads[t].e], t))
    case Create(t, ok) =>
      Apply(s, t, CreateEffect(s.entries[s.threads[t].e], ok, s.created))
        .(created := if ok then s.created + 1 else s.created, failures := if ok then s.failures else s.failures + {s.threads[t].e})
    case Forget(t) =>
      var At(e, key, op) := s.threads[t];
      s.(registry := Removed(s.registry, key, e),
         entries := if op.CreateFailed? then s.entries[e := s.entries[e].(mu := None)] else s.entries,
         threads := s.threads[t := if op.CreateFailed? then Failed else if op.DropStale? then Lookup(key) else Done])
    case Release(t) => Apply(s, t, ReleaseEffect(s.entries[s.threads[t].e], s.threads[t].op.client))
    case Close(t) =>
      Apply(s, t, Effect(s.entries[s.threads[t].e], Some(Unregister))).(closes := s.closes + [s.threads[t].op.client])
  }

  // ----- one entry, seen alone -----

  function Ops(threads: map<Thread, Pc>, e: nat): map<Thread, Op> {
    map t | t in threads && threads[t].At? && threads[t].e == e :: threads[t].op
  }

  function Holders(ops: map<Thread, Op>): set<Thread> {
    set t | t in ops && ops[t].Holding?
  }

  /** References are holders, and everyone who has the entry's client has this one. */
  ghost predicate Counts(entry: Entry, ops: map<Thread, Op>) {
    && entry.refs == |Holders(ops)|
    && (forall t :: t in ops && (ops[t].Holding? || ops[t].Closing?) ==> entry.client == Some(ops[t].client))
    && (entry.closed ==> entry.refs == 0 && entry.client.Some?)
    && (!entry.closed ==> (entry.client.Some? <==> entry.refs > 0))
  }

  /** A client is closed by the one goroutine that closed its entry, once. */
  ghost predicate Teardown(entry: Entry, ops: map<Thread, Op>, closes: seq<Client>) {
    && (forall t :: t in ops && ops[t].Closing? ==> entry.closed)
    && (forall t, u :: t in ops && u in ops && ops[t].Closing? && ops[u].Closing? ==> t == u)
    && (!entry.closed && entry.client.Some? ==> entry.client.value !in closes)
    && (entry.closed && entry.client.Some? ==> (entry.client.value in closes <==> forall t :: t in ops ==> !ops[t].Closing?))
  }

  /** The mutex is kept only while a client is made, and then the entry has none. */
  ghost predicate Locking(entry: Entry, ops: map<Thread, Op>) {
    && (entry.mu.Some? ==> entry.mu.value in ops && (ops[entry.mu.value].Creating? || ops[entry.mu.value].CreateFailed?))
    && (forall t :: t in ops && (ops[t].Creating? || ops[t].CreateFailed?) ==> entry.mu == Some(t) && entry.client.None? && !entry.closed)
  }

  ghost predicate EntryInv(entry: Entry, ops: map<Thread, Op>, closes: seq<Client>) {
    Counts(entry, ops) && Teardown(entry, ops, closes) && Locking(entry, ops)
  }

  lemma HoldersPut(ops: map<Thread, Op>, t: Thread, op: Op)
    ensures |Holders(ops[t := op])|
         == |Holders(ops)| - (if t in ops && ops[t].Holding? then 1 else 0) + (if op.Holding? then 1 else 0)
  {
    if op.Holding? {
      assert Holders(ops[t := op]) == Holders(ops) + {t};
    } else {
      assert Holders(ops[t := op]) == Holders(ops) - {t};
    }
  }

  lemma HoldersDrop(ops: map<Thread, Op>, t: Thread)
    ensures |Holders(ops - {t})| == |Holders(ops)| - (if t in ops && ops[t].Holding? then 1 else 0)
  {
    assert Holders(ops - {t}) == Holders(ops) - {t};
  }

  function Put(ops: map<Thread, Op>, t: Thread, op: Option<Op>): map<Thread, Op> {
    match op
    case Some(next) => ops[t := next]
    case None => ops - {t}
  }

  lemma LockKeeps(entry: Entry, ops: map<Thread, Op>, closes: seq<Client>, t: Thread)
    requires EntryInv(entry, ops, closes) && t in ops && ops[t].LockEntry? && entry.mu.None?
    ensures var effect := LockEffect(entry, t);
      EntryInv(effect.entry, Put(ops, t, effect.op), closes)
  {
    var op := LockEffect(entry, t).op.value;
    HoldersPut(ops, t, op);
    if entry.closed && entry.client.Some? && entry.client.value !in closes {
      var u :| u in ops && ops[u].Closing?;
      assert ops[t := op][u].Closing?;
    }
  }

  lemma CreateKeeps(entry: Entry, ops: map<Thread, Op>, closes: seq<Client>, t: Thread, ok: bool, client: Client)
    requires EntryInv(entry, ops, closes) && t in ops && ops[t].Creating? && client !in closes
    ensures var effect := CreateEffect(entry, ok, client);
      EntryInv(effect.entry, Put(ops, t, effect.op), closes)
  {
    HoldersPut(ops, t, CreateEffect(entry, ok, client).op.value);
  }

  lemma ReleaseKeeps(entry: Entry, ops: map<Thread, Op>, closes: seq<Client>, t: Thread)
    requires EntryInv(entry, ops, closes) && t in ops && ops[t].Holding? && entry.mu.None?
    ensures var effect := ReleaseEffect(entry, ops[t].client);
      EntryInv(effect.entry, Put(ops, t, effect.op), closes)
  {
    var effect := ReleaseEffect(entry, ops[t].client);
    assert t in Holders(ops);
    if effect.op.Some? {
      HoldersPut(ops, t, effect.op.value);
      assert Put(ops, t, effect.op)[t].Closing?;
    } else {
      HoldersDrop(ops, t);
    }
  }

  lemma CloseKeeps(entry: Entry, ops: map<Thread, Op>, closes: seq<Client>, t: Thread)
    requires EntryInv(entry, ops, closes) && t in ops && ops[t].Closing?
    ensures EntryInv(entry, ops[t := Unregister], closes + [ops[t].client])
  {
    HoldersPut(ops, t, Unregister);
  }

  lemma LeaveKeeps(entry: Entry, ops: map<Thread, Op>, closes: seq<Client>, t: Thread)
    requires EntryInv(entry, ops, closes) && t in ops && (ops[t].CreateFailed? || ops[t].DropStale? || ops[t].Unregister?)
    ensures EntryInv(if ops[t].CreateFailed? then entry.(mu := None) else entry, ops - {t}, closes)
  {
    HoldersDrop(ops, t);
    if entry.closed && entry.client.Some? && entry.client.value !in closes {
      var u :| u in ops && ops[u].Closing?;
      assert (ops - {t})[u].Closing?;
    }
  }

  lemma JoinKeeps(entry: Entry, ops: map<Thread, Op>, closes: seq<Client>, t: Thread)
    requires EntryInv(entry, ops, closes) && t !in ops
    ensures EntryInv(entry, ops[t := LockEntry], closes)
  {
    HoldersPut(ops, t, LockEntry);
    if entry.closed && entry.client.Some? && entry.client.value !in closes {
      var u :| u in ops && ops[u].Closing?;
      assert ops[t := LockEntry][u].Closing?;
    }
  }

  // ----- the whole registry -----

  /** Every client made belongs to one entry, and no other does. */
  ghost predicate Made(entries: seq<Entry>, created: nat) {
    && (forall e :: 0 <= e < |entries| && entries[e].client.Some? ==> entries[e].client.value < created)
    && (forall e, f :: 0 <= e < f < |entries| && entries[e].client.Some? ==> entries[e].client != entries[f].client)
    && (forall c :: 0 <= c < created ==> HasClient(entries, c))
  }

  ghost predicate HasClient(entries: seq<Entry>, c: Client) {
    exists e :: 0 <= e < |entries| && entries[e].client == Some(c)
  }

  ghost predicate InBounds(s: State) {
    && (forall key :: key in s.registry ==> s.registry[key] < |s.entries|)
    && (forall t :: t in s.threads && s.threads[t].At? ==> s.threads[t].e < |s.entries|)
  }

  /** Only clients that were made are closed, each of them once. */
  ghost predicate ClosedOnce(closes: seq<Client>, created: nat) {
    && (forall i :: 0 <= i < |closes| ==> closes[i] < created)
    && (forall i, j :: 0 <= i < j < |closes| ==> closes[i] != closes[j])
  }

  ghost predicate Global(s: State) {
    InBounds(s) && Made(s.entries, s.created) && ClosedOnce(s.closes, s.created)
  }

  ghost predicate EntriesInv(s: State) {
    forall e :: 0 <= e < |s.entries| ==> EntryInv(s.entries[e], Ops(s.threads, e), s.closes)
  }

  ghost predicate Inv(s: State) {
    Global(s) && EntriesInv(s)
  }

  lemma OpsPut(threads: map<Thread, Pc>, t: Thread, pc: Pc, e: nat)
    ensures Ops(threads[t := pc], e) == if pc.At? && pc.e == e then Ops(threads, e)[t := pc.op] else Ops(threads, e) - {t}
    ensures t !in Ops(threads, e) ==> Ops(threads, e) - {t} == Ops(threads, e)
  {
  }

  /** A step on one entry leaves the others, whose client is not the one closed, as they are. */
  lemma OthersKeep(s: State, n: State, t: Thread, e: nat, f: nat)
    requires EntriesInv(s) && t in s.threads && s.threads[t].At? && s.threads[t].e == e && f < |s.entries| && f != e
    requires f < |n.entries| && n.entries[f] == s.entries[f] && t in n.threads && n.threads == s.threads[t := n.threads[t]]
    requires n.threads[t].At? ==> n.threads[t].e == e
    requires n.closes == s.closes || (exists c :: n.closes == s.closes + [c] && s.entries[f].client != Some(c))
    ensures EntryInv(n.entries[f], Ops(n.threads, f), n.closes)
  {
    OpsPut(s.threads, t, n.threads[t], f);
    assert Ops(n.threads, f) == Ops(s.threads, f);
    assert s.entries[f].client.Some? ==> (s.entries[f].client.value in n.closes <==> s.entries[f].client.value in s.closes);
  }

  /** The goroutine's own entry after a step. */
  lemma OwnKeeps(s: State, a: Action)
    requires Inv(s) && Enabled(s, a) && !a.Acquire? && !a.Find?
    ensures var e := s.threads[a.t].e; e < |Next(s, a).entries| && EntryInv(Next(s, a).entries[e], Ops(Next(s, a).threads, e), Next(s, a).closes)
  {
    var t, n := a.t, Next(s, a);
    var e := s.threads[t].e;
    var ops := Ops(s.threads, e);
    assert EntryInv(s.entries[e], ops, s.closes) && ops[t] == s.threads[t].op;
    OpsPut(s.threads, t, n.threads[t], e);
    match a
    case Lock(_) => LockKeeps(s.entries[e], ops, s.closes, t);
    case Create(_, ok) => CreateKeeps(s.entries[e], ops, s.closes, t, ok, s.created);
    case Forget(_) => LeaveKeeps(s.entries[e], ops, s.closes, t);
    case Release(_) => ReleaseKeeps(s.entries[e], ops, s.closes, t);
    case Close(_) => CloseKeeps(s.entries[e], ops, s.closes, t);
  }

  lemma StepKeepsEntries(s: State, a: Action)
    requires Inv(s) && Enabled(s, a) && !a.Acquire? && !a.Find?
    ensures EntriesInv(Next(s, a))
  {
    var n := Next(s, a);
    var e := s.threads[a.t].e;
    assert EntryInv(s.entries[e], Ops(s.threads, e), s.closes) && Ops(s.threads, e)[a.t] == s.threads[a.t].op;
    forall f | 0 <= f < |n.entries|
      ensures EntryInv(n.entries[f], Ops(n.threads, f), n.closes)
    {
      if f == e {
        OwnKeeps(s, a);
      } else {
        OthersKeep(s, n, a.t, e, f);
      }
    }
  }

  lemma MadeStays(entries: seq<Entry>, after: seq<Entry>, created: nat)
    requires Made(entries, created) && |entries| <= |after|
    requires forall e :: 0 <= e < |entries| ==> after[e].client == entries[e].client
    requires forall e :: |entries| <= e < |after| ==> after[e].client.None?
    ensures Made(after, created)
  {
    forall c | 0 <= c < created
      ensures HasClient(after, c)
    {
      assert HasClient(entries, c);
      var e :| 0 <= e < |entries| && entries[e].client == Some(c);
      assert after[e].client == Some(c);
    }
    forall e, f | 0 <= e < f < |after| && after[e].client.Some?
      ensures after[e].client != after[f].client
    {
      assert e < |entries|;
      if f < |entries| {
        assert entries[e].client != entries[f].client;
      }
    }
  }

  lemma MadeMore(entries: seq<Entry>, created: nat, e: nat, entry: Entry)
    requires Made(entries, created) && e < |entries| && entries[e].client.None? && entry.client == Some(created)
    ensures Made(entries[e := entry], created + 1)
  {
    var after := entries[e := entry];
    forall c | 0 <= c < created + 1
      ensures HasClient(after, c)
    {
      if c == created {
        assert after[e].client == Some(c);
      } else {
        assert HasClient(entries, c);
        var f :| 0 <= f < |entries| && entries[f].client == Some(c);
        assert after[f].client == Some(c);
      }
    }
  }

  lemma StepKeepsBounds(s: State, a: Action)
    requires InBounds(s) && Enabled(s, a)
    ensures InBounds(Next(s, a))
  {
  }

  lemma StepKeepsGlobal(s: State, a: Action)
    requires Inv(s) && Enabled(s, a) && !a.Acquire? && !a.Find?
    ensures Global(Next(s, a))
  {
    var n := Next(s, a);
    var e := s.threads[a.t].e;
    var ops := Ops(s.threads, e);
    assert EntryInv(s.entries[e], ops, s.closes) && ops[a.t] == s.threads[a.t].op;
    StepKeepsBounds(s, a);
    if a.Create? && a.ok {
      MadeMore(s.entries, s.created, e, n.entries[e]);
    } else {
      MadeStays(s.entries, n.entries, s.created);
    }
  }

  lemma FindKeepsEntries(s: State, t: Thread)
    requires Inv(s) && Enabled(s, Find(t))
    ensures EntriesInv(Next(s, Find(t)))
  {
    var n := Next(s, Find(t));
    forall e | 0 <= e < |n.entries|
      ensures EntryInv(n.entries[e], Ops(n.threads, e), n.closes)
    {
      OpsPut(s.threads, t, n.threads[t], e);
      if e == |s.entries| {
        assert Ops(s.threads, e) == map[];
        FirstKeeps(t, s.closes);
      } else if n.threads[t].e == e {
        JoinKeeps(s.entries[e], Ops(s.threads, e), s.closes, t);
      } else {
        assert Ops(n.threads, e) == Ops(s.threads, e);
      }
    }
  }

  lemma FirstKeeps(t: Thread, closes: seq<Client>)
    ensures EntryInv(NewEntry, map[][t := LockEntry], closes)
  {
    assert Holders(map[][t := LockEntry]) == {};
  }

  lemma FindKeepsInv(s: State, t: Thread)
    requires Inv(s) && Enabled(s, Find(t))
    ensures Inv(Next(s, Find(t)))
  {
    FindKeepsEntries(s, t);
    MadeStays(s.entries, Next(s, Find(t)).entries, s.created);
  }

  lemma AcquireKeepsInv(s: State, t: Thread, key: Key)
    requires Inv(s) && t !in s.threads
    ensures Inv(Next(s, Acquire(t, key)))
  {
    var n := Next(s, Acquire(t, key));
    forall e | 0 <= e < |n.entries|
      ensures EntryInv(n.entries[e], Ops(n.threads, e), n.closes)
    {
      OpsPut(s.threads, t, Lookup(key), e);
      assert Ops(n.threads, e) == Ops(s.threads, e);
    }
  }

  lemma StepKeepsInv(s: State, a: Action)
    requires Inv(s) && Enabled(s, a)
    ensures Inv(Next(s, a))
  {
    match a {
      case Acquire(t, key) => AcquireKeepsInv(s, t, key);
      case Find(t) => FindKeepsInv(s, t);
      case _ =>
        StepKeepsEntries(s, a);
        StepKeepsGlobal(s, a);
    }
  }

  // ----- runs -----

  ghost predicate IsRun(states: seq<State>, actions: seq<Action>) {
    && |states| == |actions| + 1 && states[0] == Init
    && forall i :: 0 <= i < |actions| ==> Enabled(states[i], actions[i]) && states[i + 1] == Next(states[i], actions[i])
  }

  lemma {:induction false} RunKeepsInv(states: seq<State>, actions: seq<Action>, i: nat)
    requires IsRun(states, actions) && i < |states|
    ensures Inv(states[i])
  {
    if i > 0 {
      var j := i - 1;
      RunKeepsInv(states, actions, j);
      assert states[j + 1] == Next(states[j], actions[j]);
      StepKeepsInv(states[j], actions[j]);
    }
  }

  /** A client is in use by a goroutine that acquired it and did not release it yet. */
  ghost predicate InUse(s: State, c: Client) {
    exists t :: IsAt(s, t) && s.threads[t].op == Holding(c)
  }

  /** A client's teardown has begun: it was closed, or a goroutine is about to close it. */
  ghost predicate TornDown(s: State, c: Client) {
    c in s.closes || exists t :: IsAt(s, t) && s.threads[t].op == Closing(c)
  }

  lemma ClientOfEntry(s: State, t: Thread)
    requires Inv(s) && IsAt(s, t) && (s.threads[t].op.Holding? || s.threads[t].op.Closing?)
    ensures s.entries[s.threads[t].e].client == Some(s.threads[t].op.client)
    ensures s.threads[t].op.Holding? ==> !s.entries[s.threads[t].e].closed
    ensures s.threads[t].op.Closing? ==> s.entries[s.threads[t].e].closed
  {
    var e := s.threads[t].e;
    var ops := Ops(s.threads, e);
    assert EntryInv(s.entries[e], ops, s.closes) && ops[t] == s.threads[t].op;
    if s.threads[t].op.Holding? {
      assert t in Holders(ops);
    }
  }

  /**
   * Shared client lifetime. In every interleaving each client is closed at most once, and never
   * while in use; in particular no acquire returns a client whose teardown has begun.
   */
  lemma ClientLifetime(states: seq<State>, actions: seq<Action>, i: nat, c: Client)
    requires IsRun(states, actions) && i < |states|
    ensures var s := states[i];
      && (forall x, y :: 0 <= x < y < |s.closes| ==> s.closes[x] != s.closes[y])
      && !(InUse(s, c) && TornDown(s, c))
  {
    var s := states[i];
    RunKeepsInv(states, actions, i);
    if t :| IsAt(s, t) && s.threads[t].op == Holding(c) {
      ClientOfEntry(s, t);
      var e := s.threads[t].e;
      assert EntryInv(s.entries[e], Ops(s.threads, e), s.closes);
      forall u | IsAt(s, u)
        ensures s.threads[u].op != Closing(c)
      {
        if s.threads[u].op == Closing(c) {
          ClientOfEntry(s, u);
        }
      }
    }
  }

  /** No client is lost: each one made is in use or its teardown has begun, and never both. */
  lemma NoClientIsLost(states: seq<State>, actions: seq<Action>, i: nat, c: Client)
    requires IsRun(states, actions) && i < |states| && c < states[i].created
    ensures InUse(states[i], c) <==> !TornDown(states[i], c)
  {
    var s := states[i];
    RunKeepsInv(states, actions, i);
    ClientLifetime(states, actions, i, c);
    assert HasClient(s.entries, c);
    var e :| 0 <= e < |s.entries| && s.entries[e].client == Some(c);
    var ops := Ops(s.threads, e);
    assert EntryInv(s.entries[e], ops, s.closes);
    if s.entries[e].closed {
      if c !in s.closes {
        var t :| t in ops && ops[t].Closing?;
        assert IsAt(s, t) && s.threads[t].op == Closing(c);
      }
    } else {
      var t :| t in Holders(ops);
      assert IsAt(s, t) && s.threads[t].op == Holding(c);
    }
  }

  /** From the start of its teardown on, a client is never in use again. */
  lemma {:induction false} TeardownIsFinal(states: seq<State>, actions: seq<Action>, i: nat, j: nat, c: Client)
    requires IsRun(states, actions) && i <= j < |states| && TornDown(states[i], c)
    ensures TornDown(states[j], c) && !InUse(states[j], c)
    decreases j
  {
    if i < j {
      var k := j - 1;
      TeardownIsFinal(states, actions, i, k, c);
      var s, a := states[k], actions[k];
      assert Enabled(s, a) && states[k + 1] == Next(s, a);
      if t :| IsAt(s, t) && s.threads[t].op == Closing(c) {
        assert c in Next(s, a).closes || (IsAt(Next(s, a), t) && Next(s, a).threads[t].op == Closing(c));
      }
    }
    ClientLifetime(states, actions, j, c);
  }

  /** The goroutine is in the middle of an acquire or of a teardown. */
  predicate IsBusy(pc: Pc) {
    pc.Lookup? || (pc.At? && !pc.op.Holding?)
  }

  /** The step of a goroutine that is busy with its call. */
  function StepOf(t: Thread, pc: Pc): Action
    requires IsBusy(pc)
  {
    match pc
    case Lookup(_) => Find(t)
    case At(_, _, op) =>
      if op.LockEntry? then Lock(t) else if op.Creating? then Create(t, true) else if op.Closing? then Close(t) else Forget(t)
    case _ => Find(t)
  }

  /** No deadlock: whoever waits for an entry's mutex waits for a goroutine that can move. */
  lemma AcquireProgresses(states: seq<State>, actions: seq<Action>, i: nat, t: Thread)
    requires IsRun(states, actions) && i < |states| && t in states[i].threads && IsBusy(states[i].threads[t])
    ensures exists u :: u in states[i].threads && IsBusy(states[i].threads[u]) && Enabled(states[i], StepOf(u, states[i].threads[u]))
  {
    var s := states[i];
    RunKeepsInv(states, actions, i);
    if s.threads[t].At? && s.threads[t].op.LockEntry? && s.entries[s.threads[t].e].mu.Some? {
      var e := s.threads[t].e;
      var u := s.entries[e].mu.value;
      assert EntryInv(s.entries[e], Ops(s.threads, e), s.closes) && u in Ops(s.threads, e);
      assert Enabled(s, StepOf(u, s.threads[u]));
    } else {
      assert Enabled(s, StepOf(t, s.threads[t]));
    }
  }

  /** How many steps a goroutine has ahead of it at most, if it meets no entry that is being torn down. */
  function Ahead(pc: Pc): nat {
    match pc
    case Lookup(_) => 6
    case Failed => 0
    case Done => 0
    case At(_, _, op) =>
      match op
      case DropStale => 7
      case LockEntry => 5
      case Creating => 4
      case Holding(_) => 3
      case Closing(_) => 2
      case Unregister => 1
      case CreateFailed => 1
  }

  /** Every step of a goroutine takes it nearer to its end, unless it meets a closed entry. */
  lemma EveryStepIsNearer(s: State, a: Action)
    requires Enabled(s, a) && !a.Acquire?
    ensures a.t in s.threads && a.t in Next(s, a).threads
    ensures Ahead(Next(s, a).threads[a.t]) < Ahead(s.threads[a.t]) || (a.Lock? && s.entries[s.threads[a.t].e].closed)
  {
  }

  // ----- one client for each key -----

  predicate Registered(s: State, e: nat) {
    e < |s.keys| && s.keys[e] in s.registry && s.registry[s.keys[e]] == e
  }

  /** A goroutine is at an entry of its own key; it removes the registration of a closed entry or after a failure. */
  predicate Knows(s: State, pc: Pc) {
    pc.At? ==>
      && pc.e < |s.entries| && pc.e < |s.keys| && s.keys[pc.e] == pc.key
      && (pc.op.CreateFailed? ==> pc.e in s.failures)
      && (pc.op.DropStale? || pc.op.Unregister? ==> s.entries[pc.e].closed)
  }

  /** The entry is at the failed creation that will remove its registration. */
  predicate IsFailing(s: State, e: nat)
    requires e < |s.entries|
  {
    var mu := s.entries[e].mu;
    mu.Some? && mu.value in s.threads && s.threads[mu.value].At? && s.threads[mu.value].e == e && s.threads[mu.value].op.CreateFailed?
  }

  /** An open entry is registered until a creation for it fails. */
  predicate Found(s: State, e: nat)
    requires e < |s.entries|
  {
    && (s.entries[e].closed || e in s.failures || Registered(s, e))
    && (e in s.failures && Registered(s, e) ==> IsFailing(s, e))
  }

  ghost predicate Sharing(s: State) {
    && |s.keys| == |s.entries|
    && (forall key :: key in s.registry ==> s.registry[key] < |s.keys| && s.keys[s.registry[key]] == key)
    && (forall t :: t in s.threads ==> Knows(s, s.threads[t]))
    && (forall e :: e in s.failures ==> e < |s.entries|)
    && (forall e :: 0 <= e < |s.entries| ==> Found(s, e))
  }

  lemma AcquireKeepsSharing(s: State, t: Thread, key: Key)
    requires Sharing(s) && t !in s.threads
    ensures Sharing(Next(s, Acquire(t, key)))
  {
    var n := Next(s, Acquire(t, key));
    forall e | 0 <= e < |n.entries|
      ensures Found(n, e)
    {
      assert Found(s, e);
    }
    forall u | u in n.threads
      ensures Knows(n, n.threads[u])
    {
      if u != t { assert Knows(s, s.threads[u]); }
    }
  }

  lemma FindKeepsSharing(s: State, t: Thread)
    requires Sharing(s) && Enabled(s, Find(t))
    ensures Sharing(Next(s, Find(t)))
  {
    var n := Next(s, Find(t));
    forall e | 0 <= e < |n.entries|
      ensures Found(n, e)
    {
      if e < |s.entries| {
        assert Found(s, e) && n.entries[e] == s.entries[e] && n.keys[e] == s.keys[e];
        assert Registered(n, e) <==> Registered(s, e);
      }
    }
    forall u | u in n.threads
      ensures Knows(n, n.threads[u])
    {
      if u != t { assert Knows(s, s.threads[u]); }
    }
  }

  /** What a step on entry `e` may do to it, for the goroutines and entries that share the registry. */
  ghost predicate Touches(s: State, n: State, t: Thread, e: nat)
    requires t in s.threads && e < |s.entries|
  {
    && |n.entries| == |s.entries| && n.keys == s.keys && t in n.threads && n.threads == s.threads[t := n.threads[t]]
    && (forall f :: 0 <= f < |s.entries| && f != e ==> n.entries[f] == s.entries[f])
    && (s.entries[e].closed ==> n.entries[e].closed)
    && s.failures <= n.failures <= s.failures + {e}
    && (n.registry == s.registry || (e < |s.keys| && n.registry == Removed(s.registry, s.keys[e], e)))
  }

  lemma StepTouches(s: State, a: Action)
    requires Sharing(s) && Enabled(s, a) && !a.Acquire? && !a.Find?
    ensures Touches(s, Next(s, a), a.t, s.threads[a.t].e)
  {
    assert Knows(s, s.threads[a.t]);
  }

  lemma OtherIsFound(s: State, n: State, t: Thread, e: nat, f: nat)
    requires Sharing(s) && t in s.threads && s.threads[t].At? && s.threads[t].e == e && e < |s.entries|
    requires Touches(s, n, t, e) && f < |s.entries| && f != e && Found(s, f)
    ensures Found(n, f)
  {
    assert s.keys[f] in s.registry && s.registry[s.keys[f]] == f <==> s.keys[f] in n.registry && n.registry[s.keys[f]] == f;
  }

  /** The goroutine's own entry stays registered, is closed, or had a failure. */
  lemma OwnIsFound(s: State, a: Action)
    requires Inv(s) && Sharing(s) && Enabled(s, a) && !a.Acquire? && !a.Find?
    ensures var e := s.threads[a.t].e; e < |Next(s, a).entries| && Found(Next(s, a), e)
  {
    var e := s.threads[a.t].e;
    var ops := Ops(s.threads, e);
    assert Knows(s, s.threads[a.t]) && Found(s, e);
    assert EntryInv(s.entries[e], ops, s.closes) && ops[a.t] == s.threads[a.t].op;
    if IsFailing(s, e) {
      assert ops[s.entries[e].mu.value].CreateFailed?;
    }
  }

  lemma StepKeepsSharing(s: State, a: Action)
    requires Inv(s) && Sharing(s) && Enabled(s, a) && !a.Acquire? && !a.Find?
    ensures Sharing(Next(s, a))
  {
    var n, e := Next(s, a), s.threads[a.t].e;
    StepTouches(s, a);
    forall f | 0 <= f < |n.entries|
      ensures Found(n, f)
    {
      if f == e {
        OwnIsFound(s, a);
      } else {
        OtherIsFound(s, n, a.t, e, f);
      }
    }
    forall t | t in n.threads
      ensures Knows(n, n.threads[t])
    {
      assert Knows(s, s.threads[t]);
      if t == a.t {
        OwnKnows(s, a);
      }
    }
  }

  lemma OwnKnows(s: State, a: Action)
    requires Inv(s) && Sharing(s) && Enabled(s, a) && !a.Acquire? && !a.Find?
    ensures a.t in Next(s, a).threads && Knows(Next(s, a), Next(s, a).threads[a.t])
  {
    var e := s.threads[a.t].e;
    assert Knows(s, s.threads[a.t]);
    assert EntryInv(s.entries[e], Ops(s.threads, e), s.closes) && Ops(s.threads, e)[a.t] == s.threads[a.t].op;
  }

  lemma {:induction false} RunKeepsSharing(states: seq<State>, actions: seq<Action>, i: nat)
    requires IsRun(states, actions) && i < |states|
    ensures Sharing(states[i])
  {
    if i > 0 {
      var j := i - 1;
      RunKeepsSharing(states, actions, j);
      RunKeepsInv(states, actions, j);
      assert Enabled(states[j], actions[j]) && states[j + 1] == Next(states[j], actions[j]);
      match actions[j] {
        case Acquire(t, key) => AcquireKeepsSharing(states[j], t, key);
        case Find(t) => FindKeepsSharing(states[j], t);
        case _ => StepKeepsSharing(states[j], actions[j]);
      }
    }
  }

  /** Whoever holds a client holds that of its key's registered entry, exactly if no creation for the entry failed. */
  lemma HeldIsRegistered(s: State, t: Thread)
    requires Inv(s) && Sharing(s) && IsAt(s, t) && s.threads[t].op.Holding?
    ensures Registered(s, s.threads[t].e) <==> s.threads[t].e !in s.failures
    ensures s.threads[t].e < |s.keys| && s.keys[s.threads[t].e] == s.threads[t].key
  {
    var e := s.threads[t].e;
    var ops := Ops(s.threads, e);
    ClientOfEntry(s, t);
    assert Knows(s, s.threads[t]) && Found(s, e);
    assert EntryInv(s.entries[e], ops, s.closes) && ops[t].Holding?;
  }

  /**
   * One client for each key. In every interleaving two goroutines that hold clients of one key have
   * the same client exactly when they found the same entry. They did unless a creation for one of
   * the two entries failed; and if that is so of only one of them, they did not.
   */
  lemma HoldersShare(states: seq<State>, actions: seq<Action>, i: nat, t: Thread, u: Thread)
    requires IsRun(states, actions) && i < |states| && IsAt(states[i], t) && IsAt(states[i], u)
    requires states[i].threads[t].op.Holding? && states[i].threads[u].op.Holding? && states[i].threads[t].key == states[i].threads[u].key
    ensures var s := states[i];
      var e, f := s.threads[t].e, s.threads[u].e;
      && (s.threads[t].op.client == s.threads[u].op.client <==> e == f)
      && (e !in s.failures && f !in s.failures ==> e == f)
      && ((e in s.failures) != (f in s.failures) ==> e != f)
  {
    var s := states[i];
    RunKeepsInv(states, actions, i);
    RunKeepsSharing(states, actions, i);
    HeldIsRegistered(s, t);
    HeldIsRegistered(s, u);
    ClientOfEntry(s, t);
    ClientOfEntry(s, u);
  }

  /** The creation of a client for this key fails at a step of a run. */
  predicate FailsAt(states: seq<State>, actions: seq<Action>, k: nat, key: Key)
    requires k < |states| && k < |actions|
  {
    actions[k].Create? && !actions[k].ok && IsAt(states[k], actions[k].t) && states[k].threads[actions[k].t].key == key
  }

  lemma {:induction false} FailureHappened(states: seq<State>, actions: seq<Action>, i: nat, e: nat) returns (k: nat)
    requires IsRun(states, actions) && i < |states| && e in states[i].failures
    ensures k < i && e < |states[i].keys| && FailsAt(states, actions, k, states[i].keys[e])
  {
    var j := i - 1;
    assert Enabled(states[j], actions[j]) && states[j + 1] == Next(states[j], actions[j]);
    RunKeepsSharing(states, actions, j);
    if e in states[j].failures {
      k := FailureHappened(states, actions, j, e);
      assert states[i].keys[e] == states[j].keys[e];
    } else {
      k := j;
      assert Knows(states[j], states[j].threads[actions[j].t]);
    }
  }

  /** While no creation for a key fails, all who hold a client of the key at one time hold the same. */
  lemma KeyIsShared(states: seq<State>, actions: seq<Action>, i: nat, t: Thread, u: Thread, key: Key)
    requires IsRun(states, actions) && i < |states| && IsAt(states[i], t) && IsAt(states[i], u)
    requires states[i].threads[t].op.Holding? && states[i].threads[u].op.Holding? && states[i].threads[t].key == states[i].threads[u].key == key
    requires forall k :: 0 <= k < i ==> !FailsAt(states, actions, k, key)
    ensures states[i].threads[t].op.client == states[i].threads[u].op.client
  {
    var s := states[i];
    HoldersShare(states, actions, i, t, u);
    RunKeepsSharing(states, actions, i);
    assert Knows(s, s.threads[t]) && Knows(s, s.threads[u]);
    if s.threads[t].e in s.failures {
      var k := FailureHappened(states, actions, i, s.threads[t].e);
    }
    if s.threads[u].e in s.failures {
      var k := FailureHappened(states, actions, i, s.threads[u].e);
    }
  }

  // ----- no stale registrations -----

  /** Somebody is tearing the entry down and will remove its registration. */
  ghost predicate IsLeaving(s: State, e: nat) {
    exists t :: t in s.threads && Leaves(s.threads[t], e)
  }

  predicate Leaves(pc: Pc, e: nat) {
    pc.At? && pc.e == e && (pc.op.Closing? || pc.op.Unregister?)
  }

  /** A closed entry is registered only as long as somebody is tearing it down. */
  ghost predicate Tidy(s: State) {
    forall e :: 0 <= e < |s.entries| && s.entries[e].closed && Registered(s, e) ==> IsLeaving(s, e)
  }

  lemma EntryStaysTidy(s: State, a: Action, e: nat)
    requires Sharing(s) && Tidy(s) && Enabled(s, a) && e < |Next(s, a).entries|
    requires Next(s, a).entries[e].closed && Registered(Next(s, a), e)
    ensures IsLeaving(Next(s, a), e)
  {
    var n := Next(s, a);
    if e < |s.entries| && s.entries[e].closed {
      assert Registered(s, e);
      var t :| t in s.threads && Leaves(s.threads[t], e);
      assert Knows(s, s.threads[t]);
      assert t in n.threads && Leaves(n.threads[t], e);
    } else {
      assert Leaves(n.threads[a.t], e);
    }
  }

  /** In every interleaving the registry keeps no entry for good that was closed. */
  lemma {:induction false} NoStaleRegistration(states: seq<State>, actions: seq<Action>, i: nat)
    requires IsRun(states, actions) && i < |states|
    ensures Tidy(states[i])
  {
    if i > 0 {
      var j := i - 1;
      NoStaleRegistration(states, actions, j);
      RunKeepsSharing(states, actions, j);
      assert Enabled(states[j], actions[j]) && states[j + 1] == Next(states[j], actions[j]);
      forall e | 0 <= e < |states[i].entries| && states[i].entries[e].closed && Registered(states[i], e)
        ensures IsLeaving(states[i], e)
      {
        EntryStaysTidy(states[j], actions[j], e);
      }
    }
  }

  // ----- how an acquire ends -----

  /** The goroutine has a client in hand. */
  predicate Has(s: State, t: Thread) {
    t in s.threads && s.threads[t].At? && s.threads[t].op.Holding?
  }

  ghost predicate HadSince(states: seq<State>, b: nat, i: nat, t: Thread)
    requires i <= |states|
  {
    exists k :: b < k < i && Has(states[k], t)
  }

  /** The goroutine's own creation of a client has failed. */
  ghost predicate FailedSince(actions: seq<Action>, b: nat, i: nat, t: Thread)
    requires i <= |actions|
  {
    exists k :: b < k < i && actions[k] == Create(t, false)
  }

  ghost predicate AcquireAt(states: seq<State>, actions: seq<Action>, b: nat, i: nat, t: Thread, key: Key)
    requires i <= |actions| < |states|
  {
    && t in states[i].threads
    && match states[i].threads[t]
       case Lookup(k) => k == key
       case At(_, k, op) =>
         && k == key
         && (op.CreateFailed? ==> FailedSince(actions, b, i, t))
         && (op.Closing? || op.Unregister? ==> HadSince(states, b, i, t))
       case Failed => FailedSince(actions, b, i, t)
       case Done => HadSince(states, b, i, t)
  }

  lemma SinceGrows(states: seq<State>, actions: seq<Action>, b: nat, i: nat, t: Thread)
    requires b < i < |actions| < |states|
    ensures HadSince(states, b, i, t) || Has(states[i], t) ==> HadSince(states, b, i + 1, t)
    ensures FailedSince(actions, b, i, t) || actions[i] == Create(t, false) ==> FailedSince(actions, b, i + 1, t)
  {
  }

  lemma OthersStay(s: State, a: Action, t: Thread)
    requires Enabled(s, a) && t in s.threads && a.t != t
    ensures t in Next(s, a).threads && Next(s, a).threads[t] == s.threads[t]
  {
  }

  /** Where a goroutine's own step leads. */
  lemma OwnStep(s: State, a: Action)
    requires Enabled(s, a) && a.t in s.threads
    ensures a.t in Next(s, a).threads
    ensures match Next(s, a).threads[a.t]
      case Lookup(k) => s.threads[a.t].At? && s.threads[a.t].key == k
      case At(_, k, op) =>
        && s.threads[a.t].key == k && (op.CreateFailed? ==> a == Create(a.t, false))
        && (op.Closing? ==> Has(s, a.t)) && (op.Unregister? ==> s.threads[a.t].op.Closing?)
      case Failed => s.threads[a.t].At? && s.threads[a.t].op.CreateFailed?
      case Done => Has(s, a.t) || (s.threads[a.t].At? && s.threads[a.t].op.Unregister?)
  {
  }

  /**
   * How an acquire ends: with a client, or by its own failed creation. In every interleaving a call
   * that meets an entry being torn down looks for its key again, and one that is over held a client
   * of its key before or failed to create one.
   */
  lemma {:induction false} AcquireEnds(states: seq<State>, actions: seq<Action>, b: nat, i: nat, t: Thread, key: Key)
    requires IsRun(states, actions) && b < i < |states| && actions[b] == Acquire(t, key)
    ensures AcquireAt(states, actions, b, i, t, key)
    decreases i
  {
    var j := i - 1;
    var s, a := states[j], actions[j];
    assert Enabled(s, a) && states[j + 1] == Next(s, a);
    if b < j {
      AcquireEnds(states, actions, b, j, t, key);
      if a.t == t {
        OwnStep(s, a);
      } else {
        OthersStay(s, a, t);
      }
      SinceGrows(states, actions, b, j, t);
    }
  }

  function LastOf(states: seq<State>): State
    requires states != []
  {
    states[|states| - 1]
  }

  lemma RunsOn(states: seq<State>, actions: seq<Action>, a: Action, n: State) returns (longer: seq<State>, more: seq<Action>)
    requires IsRun(states, actions) && Enabled(LastOf(states), a) && n == Next(LastOf(states), a)
    ensures IsRun(longer, more) && LastOf(longer) == n
  {
    longer, more := states + [n], actions + [a];
  }

  /** Two goroutines find the same entry. */
  lemma BothWait(key: Key) returns (states: seq<State>, actions: seq<Action>)
    ensures IsRun(states, actions)
    ensures LastOf(states) ==
      State(map[key := 0], [NewEntry], 0, [], map[0 := At(0, key, LockEntry), 1 := At(0, key, LockEntry)], [key], {})
  {
    var look, wait := Lookup(key), At(0, key, LockEntry);
    states, actions := [Init], [];
    states, actions := RunsOn(states, actions, Acquire(0, key), Init.(threads := map[0 := look]));
    states, actions := RunsOn(states, actions, Acquire(1, key), Init.(threads := map[0 := look, 1 := look]));
    var s := State(map[key := 0], [NewEntry], 0, [], map[0 := wait, 1 := look], [key], {});
    states, actions := RunsOn(states, actions, Find(0), s);
    states, actions := RunsOn(states, actions, Find(1), s.(threads := map[0 := wait, 1 := wait]));
  }

  /** A creation fails while another goroutine waits for its entry, which is no longer registered then. */
  lemma WaitingAtFailure(key: Key) returns (states: seq<State>, actions: seq<Action>)
    ensures IsRun(states, actions)
    ensures LastOf(states) == State(map[], [NewEntry], 0, [], map[0 := Failed, 1 := At(0, key, LockEntry)], [key], {0})
  {
    var wait := At(0, key, LockEntry);
    states, actions := BothWait(key);
    var s := LastOf(states).(entries := [NewEntry.(mu := Some(0))], threads := map[0 := At(0, key, Creating), 1 := wait]);
    states, actions := RunsOn(states, actions, Lock(0), s);
    s := s.(threads := map[0 := At(0, key, CreateFailed), 1 := wait], failures := {0});
    states, actions := RunsOn(states, actions, Create(0, false), s);
    s := State(map[], [NewEntry], 0, [], map[0 := Failed, 1 := wait], [key], {0});
    states, actions := RunsOn(states, actions, Forget(0), s);
  }

  /** The one that waited makes a client of the unregistered entry. */
  lemma WaitedMakesClient(key: Key) returns (states: seq<State>, actions: seq<Action>)
    ensures IsRun(states, actions)
    ensures LastOf(states) ==
      State(map[], [Entry(Some(0), 1, false, None)], 1, [], map[0 := Failed, 1 := At(0, key, Holding(0))], [key], {0})
  {
    states, actions := WaitingAtFailure(key);
    var s := LastOf(states).(entries := [NewEntry.(mu := Some(1))], threads := map[0 := Failed, 1 := At(0, key, Creating)]);
    states, actions := RunsOn(states, actions, Lock(1), s);
    s := s.(entries := [Entry(Some(0), 1, false, None)], created := 1, threads := map[0 := Failed, 1 := At(0, key, Holding(0))]);
    states, actions := RunsOn(states, actions, Create(1, true), s);
  }

  /** And the next acquire makes another. */
  lemma SecondClient(key: Key) returns (states: seq<State>, actions: seq<Action>)
    ensures IsRun(states, actions)
    ensures var s := LastOf(states);
      IsAt(s, 1) && IsAt(s, 2) && s.threads[1].key == s.threads[2].key == key && s.threads[1].op == Holding(0) && s.threads[2].op == Holding(1)
  {
    states, actions := WaitedMakesClient(key);
    var s := LastOf(states);
    var held, threads := s.entries[0], s.threads;
    s := s.(threads := threads[2 := Lookup(key)]);
    states, actions := RunsOn(states, actions, Acquire(2, key), s);
    s := s.(registry := map[key := 1], entries := [held, NewEntry], threads := threads[2 := At(1, key, LockEntry)], keys := [key, key]);
    states, actions := RunsOn(states, actions, Find(2), s);
    s := s.(entries := [held, NewEntry.(mu := Some(2))], threads := threads[2 := At(1, key, Creating)]);
    states, actions := RunsOn(states, actions, Lock(2), s);
    s := s.(entries := [held, Entry(Some(1), 1, false, None)], created := 2, threads := threads[2 := At(1, key, Holding(1))]);
    states, actions := RunsOn(states, actions, Create(2, true), s);
  }
}
