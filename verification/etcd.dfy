/**
 * Replication from etcd: snapshots and watch responses applied to the store as atomic batches,
 * with rejected resources pruned, retried once and quarantined.
 *
 * Etcd is a growing history of revisions. The run of a client is a sequence of steps on a
 * `Replica`; the methods of `ConfigClient` take exactly these steps.
 */
module EtcdHistory {
  import opened Basics
  import opened Keys
  import opened ConfigStore

  datatype KeyValue = KeyValue(key: string, value: Value, modRevision: int)

  datatype WatchEvent = WatchEvent(kind: EventType, kv: KeyValue)

  /** One change of a revision. */
  datatype Change = Set(key: string, value: Value) | Remove(key: string)

  /** The changes of each revision, the first revision first. */
  type History = seq<seq<Change>>

  type Contents = map<string, KeyValue>

  function EventOf(change: Change, revision: nat): WatchEvent {
    match change
    case Set(key, value) => WatchEvent(Put, KeyValue(key, value, revision))
    case Remove(key) => WatchEvent(Delete, KeyValue(key, "", revision))
  }

  function RevisionEvents(changes: seq<Change>, revision: nat): (events: seq<WatchEvent>)
    ensures |events| == |changes|
    ensures forall i :: 0 <= i < |events| ==> events[i] == EventOf(changes[i], revision)
  {
    seq(|changes|, i requires 0 <= i < |changes| => EventOf(changes[i], revision))
  }

  /** The events after one revision up to and including another. */
  function Events(history: History, after: nat, upto: nat): seq<WatchEvent>
    requires after <= upto <= |history|
  {
    if after == upto then []
    else Events(history, after, upto - 1) + RevisionEvents(history[upto - 1], upto)
  }

  function Replay(contents: Contents, events: seq<WatchEvent>): Contents {
    if events == [] then contents
    else
      var last := events[|events| - 1];
      var before := Replay(contents, events[..|events| - 1]);
      if last.kind.Put? then before[last.kv.key := last.kv] else before - {last.kv.key}
  }

  /** What etcd holds at a revision. */
  function At(history: History, revision: nat): Contents
    requires revision <= |history|
  {
    Replay(map[], Events(history, 0, revision))
  }

  /** The last event of a key, if it has one. */
  function LastEvent(events: seq<WatchEvent>, key: string): Option<WatchEvent> {
    if events == [] then None
    else if events[|events| - 1].kv.key == key then Some(events[|events| - 1])
    else LastEvent(events[..|events| - 1], key)
  }

  lemma {:induction false} ReplayKey(contents: Contents, events: seq<WatchEvent>, key: string)
    ensures var after := Replay(contents, events);
            var last := LastEvent(events, key);
            if last.None? then (key in after <==> key in contents) && (key in contents ==> after[key] == contents[key])
            else if last.value.kind.Put? then key in after && after[key] == last.value.kv
            else key !in after
  {
    if events != [] {
      ReplayKey(contents, events[..|events| - 1], key);
    }
  }

  lemma {:induction false} ReplayConcat(contents: Contents, first: seq<WatchEvent>, second: seq<WatchEvent>)
    ensures Replay(contents, first + second) == Replay(Replay(contents, first), second)
  {
    if second == [] {
      assert first + second == first;
    } else {
      var n := |second| - 1;
      assert (first + second)[..|first + second| - 1] == first + second[..n];
      ReplayConcat(contents, first, second[..n]);
    }
  }

  lemma {:induction false} EventsConcat(history: History, a: nat, b: nat, c: nat)
    requires a <= b <= c <= |history|
    ensures Events(history, a, c) == Events(history, a, b) + Events(history, b, c)
  {
    if b < c {
      EventsConcat(history, a, b, c - 1);
    }
  }

  /** Watching from a revision and replaying leads from its contents to the later ones. */
  lemma AtLater(history: History, from: nat, to: nat)
    requires from <= to <= |history|
    ensures At(history, to) == Replay(At(history, from), Events(history, from, to))
  {
    EventsConcat(history, 0, from, to);
    ReplayConcat(map[], Events(history, 0, from), Events(history, from, to));
  }

  /** Events of revisions after one and up to another, in order, and only PUTs and DELETEs. */
  ghost predicate Ordered(events: seq<WatchEvent>, after: int, upto: int) {
    && (forall i :: 0 <= i < |events| ==> after < events[i].kv.modRevision <= upto && !events[i].kind.Unsupported?)
    && (forall i, j :: 0 <= i < j < |events| ==> events[i].kv.modRevision <= events[j].kv.modRevision)
  }

  lemma {:induction false} EventsOrdered(history: History, after: nat, upto: nat)
    requires after <= upto <= |history|
    ensures Ordered(Events(history, after, upto), after, upto)
  {
    if after < upto {
      var front := Events(history, after, upto - 1);
      var back := RevisionEvents(history[upto - 1], upto);
      EventsOrdered(history, after, upto - 1);
      assert Events(history, after, upto) == front + back;
    }
  }

  lemma {:induction false} LastEventMember(events: seq<WatchEvent>, key: string)
    ensures var last := LastEvent(events, key); last.Some? ==> last.value in events && last.value.kv.key == key
    ensures LastEvent(events, key).None? ==> forall i :: 0 <= i < |events| ==> events[i].kv.key != key
  {
    if events != [] {
      LastEventMember(events[..|events| - 1], key);
    }
  }

  /** A stored key-value names its own key and a revision that has happened. */
  lemma AtEntries(history: History, revision: nat, key: string)
    requires revision <= |history|
    ensures key in At(history, revision) ==>
              var kv := At(history, revision)[key]; kv.key == key && 0 < kv.modRevision <= revision
  {
    var events := Events(history, 0, revision);
    ReplayKey(map[], events, key);
    LastEventMember(events, key);
    EventsOrdered(history, 0, revision);
  }
}

module EtcdReplica {
  import opened Basics
  import opened Keys
  import opened ConfigStore
  import opened EtcdHistory

  /** One managed change on its way to the store. */
  datatype Candidate = Candidate(mutation: Mutation, key: string, resource: ResourceKey, revision: int)

  /** How the client names etcd keys, and the one pair of keys that share a resource. */
  datatype Source = Source(
    managed: string -> Option<ResourceKey>,
    mutationKey: string -> string,
    pluginList: ResourceKey,
    alias: string
  ) {
    /** The store names accepted mutations as the client does, in managed buckets, one key per resource. */
    ghost predicate Faithful(schema: Schema) {
      && (forall key :: managed(key).Some? && schema.decode(mutationKey(key)).Some? ==>
            schema.decode(mutationKey(key)) == managed(key))
      && (forall key :: managed(key).Some? ==> managed(key).value.bucket in schema.buckets)
      && (forall a, b :: managed(a).Some? && managed(a) == managed(b) && a != b ==>
            managed(a).value == pluginList && (a == alias || b == alias))
    }

    function ManagedOnly(keys: set<string>): set<string> {
      set key | key in keys && managed(key).Some?
    }

    function CandidateOf(event: WatchEvent, header: int): (candidate: Candidate)
      requires managed(event.kv.key).Some?
      // the revision of the change itself, or the response's for want of one
      ensures event.kv.modRevision > 0 ==> candidate.revision == event.kv.modRevision
      ensures header > 0 ==> candidate.revision > 0
    {
      Candidate(Mutation(event.kind, mutationKey(event.kv.key), event.kv.value),
                event.kv.key,
                managed(event.kv.key).value,
                if event.kv.modRevision <= 0 then header else event.kv.modRevision)
    }

    /** The managed changes of a response; keys the gateway does not manage are skipped. */
    function Candidates(events: seq<WatchEvent>, header: int): seq<Candidate> {
      if events == [] then []
      else
        var last := events[|events| - 1];
        Candidates(events[..|events| - 1], header) +
        (if managed(last.kv.key).Some? then [CandidateOf(last, header)] else [])
    }
  }

  /** A snapshot's key-values as PUT events. */
  function Puts(kvs: seq<KeyValue>): (events: seq<WatchEvent>)
    ensures |events| == |kvs| && forall i :: 0 <= i < |kvs| ==> events[i] == WatchEvent(Put, kvs[i])
  {
    seq(|kvs|, i requires 0 <= i < |kvs| => WatchEvent(Put, kvs[i]))
  }

  /** The position of a key's last candidate, or -1. */
  function LastPos(candidates: seq<Candidate>, key: string): (pos: int)
    ensures -1 <= pos < |candidates|
    ensures 0 <= pos ==> candidates[pos].key == key
    ensures forall i :: pos < i < |candidates| ==> candidates[i].key != key
  {
    if candidates == [] then -1
    else if candidates[|candidates| - 1].key == key then |candidates| - 1
    else LastPos(candidates[..|candidates| - 1], key)
  }

  // ----- what one successful apply does -----

  /** The rows after the candidates that were not rejected are written in order. */
  function Written(rows: Rows, candidates: seq<Candidate>, rejected: set<nat>): Rows {
    if candidates == [] then rows
    else
      var n := |candidates| - 1;
      var before := Written(rows, candidates[..n], rejected);
      if n in rejected then before
      else if candidates[n].mutation.kind.Put? then before[candidates[n].resource := candidates[n].mutation.value]
      else before - {candidates[n].resource}
  }

  function RecordQuarantine(quarantine: map<string, int>, key: string, revision: int): (r: map<string, int>)
    ensures key in r && r[key] >= revision && r.Keys == quarantine.Keys + {key}
    ensures forall k :: k in quarantine ==> r[k] >= quarantine[k]
  {
    if key !in quarantine || revision >= quarantine[key] then quarantine[key := revision] else quarantine
  }

  function ClearQuarantine(quarantine: map<string, int>, key: string, revision: int): (r: map<string, int>)
    ensures key in r ==> key in quarantine && r[key] > revision
    ensures forall k :: k in quarantine && (k != key || quarantine[k] > revision) ==> k in r && r[k] == quarantine[k]
  {
    if key in quarantine && revision >= quarantine[key] then quarantine - {key} else quarantine
  }

  /** The quarantine after the verdicts on a batch are recorded in order. */
  function Judged(quarantine: map<string, int>, candidates: seq<Candidate>, rejected: set<nat>): map<string, int> {
    if candidates == [] then quarantine
    else
      var n := |candidates| - 1;
      var before := Judged(quarantine, candidates[..n], rejected);
      if n in rejected then RecordQuarantine(before, candidates[n].key, candidates[n].revision)
      else ClearQuarantine(before, candidates[n].key, candidates[n].revision)
  }

  /** The quarantine entries a snapshot at some revision does not make obsolete. */
  function Unexpired(quarantine: map<string, int>, present: set<string>, revision: int): map<string, int> {
    map key | key in quarantine && (key in present || revision < quarantine[key]) :: quarantine[key]
  }

  /** The keys believed to be in etcd after a batch. */
  function Known(known: set<string>, candidates: seq<Candidate>): set<string> {
    if candidates == [] then known
    else
      var last := candidates[|candidates| - 1];
      var before := Known(known, candidates[..|candidates| - 1]);
      if last.mutation.kind.Delete? then before - {last.key} else before + {last.key}
  }

  function MaxRevision(revision: int, candidates: seq<Candidate>): int {
    if candidates == [] then revision
    else
      var before := MaxRevision(revision, candidates[..|candidates| - 1]);
      var last := candidates[|candidates| - 1].revision;
      if last > before then last else before
  }

  function Max(a: int, b: int): int {
    if a < b then b else a
  }

  function Resources(candidates: seq<Candidate>, positions: set<nat>): set<ResourceKey> {
    set i | 0 <= i < |candidates| && i in positions :: candidates[i].resource
  }

  /** The client's state and the store's rows. `synced` is false between a failed apply and the next success. */
  datatype Replica = Replica(
    rows: Rows,
    knownKeys: set<string>,
    quarantine: map<string, int>,
    lastRevision: int,
    synced: bool
  )

  /** A step of a run: an apply that succeeded with some resources rejected, or one that failed. */
  datatype Step =
    | SnapshotApplied(kvs: seq<KeyValue>, revision: int, rejected: set<nat>)
    | WatchApplied(events: seq<WatchEvent>, revision: int, rejected: set<nat>)
    | ApplyFailed(rows: Rows)

  function AfterSnapshot(schema: Schema, source: Source, replica: Replica,
                         kvs: seq<KeyValue>, revision: int, rejected: set<nat>): Replica {
    var candidates := source.Candidates(Puts(kvs), revision);
    var present := Known({}, candidates);
    Replica(
      Written(schema.Cleared(replica.rows, Resources(candidates, rejected)), candidates, rejected),
      present,
      Judged(Unexpired(replica.quarantine, present, revision), candidates, rejected),
      Max(revision, replica.lastRevision),
      true)
  }

  function AfterWatch(source: Source, replica: Replica,
                      events: seq<WatchEvent>, revision: int, rejected: set<nat>): Replica {
    var candidates := source.Candidates(events, revision);
    Replica(
      Written(replica.rows, candidates, rejected),
      Known(source.ManagedOnly(replica.knownKeys), candidates),
      Judged(replica.quarantine, candidates, rejected),
      MaxRevision(Max(replica.lastRevision, revision), candidates),
      true)
  }

  function Next(schema: Schema, source: Source, replica: Replica, step: Step): Replica {
    match step
    case SnapshotApplied(kvs, revision, rejected) => AfterSnapshot(schema, source, replica, kvs, revision, rejected)
    case WatchApplied(events, revision, rejected) => AfterWatch(source, replica, events, revision, rejected)
    case ApplyFailed(rows) => replica.(rows := rows, synced := false)
  }

  /** The store decoded every mutation it did not reject. */
  ghost predicate Decoded(schema: Schema, candidates: seq<Candidate>, rejected: set<nat>) {
    forall i :: 0 <= i < |candidates| && i !in rejected ==> schema.decode(candidates[i].mutation.key).Some?
  }

  /** A snapshot holds etcd's key-values at its revision, each managed one exactly once. */
  ghost predicate SnapshotOf(source: Source, kvs: seq<KeyValue>, contents: Contents) {
    && (forall i :: 0 <= i < |kvs| ==> kvs[i].key in contents && contents[kvs[i].key] == kvs[i])
    && (forall i, j :: 0 <= i < j < |kvs| ==> kvs[i].key != kvs[j].key)
    && (forall key :: key in contents && source.managed(key).Some? ==> contents[key] in kvs)
  }

  /** The steps etcd and the store allow: snapshots are not stale, watch responses leave no gap. */
  ghost predicate Allowed(schema: Schema, source: Source, history: History, replica: Replica, step: Step) {
    match step
    case SnapshotApplied(kvs, revision, rejected) =>
      && replica.lastRevision <= revision && 0 <= revision <= |history|
      && SnapshotOf(source, kvs, At(history, revision))
      && Decoded(schema, source.Candidates(Puts(kvs), revision), rejected)
    case WatchApplied(events, revision, rejected) =>
      && replica.synced && 0 <= replica.lastRevision <= revision <= |history|
      && source.Candidates(events, revision) ==
         source.Candidates(Events(history, replica.lastRevision, revision), revision)
      && Decoded(schema, source.Candidates(events, revision), rejected)
    case ApplyFailed(_) => true
  }

  // ----- the invariant -----

  /** The key that shares the plugin list's resource never occurs. */
  ghost predicate AliasFree(source: Source, history: History) {
    forall r, i :: 0 <= r < |history| && 0 <= i < |history[r]| ==> history[r][i].key != source.alias
  }

  /** A managed key whose resource no other key of this history names. */
  ghost predicate Unambiguous(source: Source, history: History, key: string) {
    source.managed(key).Some? && (source.managed(key).value == source.pluginList ==> key != source.alias && AliasFree(source, history))
  }

  /** A row and an etcd key agree: both absent, or both present with one value. */
  ghost predicate SameValue(rows: Rows, resource: ResourceKey, contents: Contents, key: string) {
    && (key in contents <==> resource in rows)
    && (key in contents ==> rows[resource] == contents[key].value)
  }

  /** Every unambiguous key outside the quarantine is in the store as etcd had it at the last revision. */
  ghost predicate Mirror(source: Source, history: History, replica: Replica)
    requires 0 <= replica.lastRevision <= |history|
  {
    forall key :: Unambiguous(source, history, key) && key !in replica.quarantine ==>
      SameValue(replica.rows, source.managed(key).value, At(history, replica.lastRevision), key)
  }

  ghost predicate QuarantinePast(history: History, replica: Replica)
    requires 0 <= replica.lastRevision <= |history|
  {
    forall key :: key in replica.quarantine ==>
      && replica.quarantine[key] <= replica.lastRevision
      && (key in At(history, replica.lastRevision) ==>
            replica.quarantine[key] <= At(history, replica.lastRevision)[key].modRevision)
  }

  ghost predicate KnownExactly(source: Source, history: History, replica: Replica)
    requires 0 <= replica.lastRevision <= |history|
  {
    forall key :: key in replica.knownKeys <==> source.managed(key).Some? && key in At(history, replica.lastRevision)
  }

  ghost predicate Inv(source: Source, history: History, replica: Replica) {
    && 0 <= replica.lastRevision <= |history|
    && QuarantinePast(history, replica)
    && (replica.synced ==> Mirror(source, history, replica) && KnownExactly(source, history, replica))
  }

  // ----- one key through one apply -----

  /** The candidate stands for some managed event of the response. */
  ghost predicate From(source: Source, events: seq<WatchEvent>, header: int, candidate: Candidate) {
    exists event :: event in events && source.managed(event.kv.key).Some? && candidate == source.CandidateOf(event, header)
  }

  lemma {:induction false} CandidatesMembers(source: Source, events: seq<WatchEvent>, header: int)
    ensures forall candidate :: candidate in source.Candidates(events, header) ==> From(source, events, header, candidate)
  {
    if events != [] {
      var n := |events| - 1;
      CandidatesMembers(source, events[..n], header);
      assert events == events[..n] + [events[n]];
      forall candidate | candidate in source.Candidates(events, header)
        ensures From(source, events, header, candidate)
      {
        if candidate in source.Candidates(events[..n], header) {
          assert From(source, events[..n], header, candidate);
        } else {
          assert events[n] in events;
        }
      }
    }
  }

  /** A managed key's last event is its last candidate. */
  lemma {:induction false} LastCandidate(source: Source, events: seq<WatchEvent>, header: int, key: string)
    requires source.managed(key).Some?
    ensures var candidates := source.Candidates(events, header);
            var last := LastEvent(events, key);
            var pos := LastPos(candidates, key);
            && (last.None? <==> pos == -1)
            && (last.Some? ==> last.value.kv.key == key && candidates[pos] == source.CandidateOf(last.value, header))
  {
    if events != [] {
      var n := |events| - 1;
      LastCandidate(source, events[..n], header, key);
      var front := source.Candidates(events[..n], header);
      var candidates := source.Candidates(events, header);
      if source.managed(events[n].kv.key).Some? {
        assert candidates == front + [source.CandidateOf(events[n], header)];
        assert candidates[..|candidates| - 1] == front;
        assert source.CandidateOf(events[n], header).key == events[n].kv.key;
      } else {
        assert candidates == front && events[n].kv.key != key;
      }
    }
  }

  /** No other key of the batch names this key's resource. */
  ghost predicate Sole(candidates: seq<Candidate>, key: string, resource: ResourceKey) {
    forall i :: 0 <= i < |candidates| ==> (candidates[i].resource == resource <==> candidates[i].key == key)
  }

  lemma {:induction false} WrittenRow(rows: Rows, candidates: seq<Candidate>, rejected: set<nat>, key: string, resource: ResourceKey)
    requires Sole(candidates, key, resource)
    ensures var pos := LastPos(candidates, key);
            var after := Written(rows, candidates, rejected);
            && (pos == -1 ==> (resource in after <==> resource in rows) && (resource in rows ==> after[resource] == rows[resource]))
            && (pos >= 0 && pos !in rejected ==>
                  if candidates[pos].mutation.kind.Put?
                  then resource in after && after[resource] == candidates[pos].mutation.value
                  else resource !in after)
  {
    if candidates != [] {
      WrittenRow(rows, candidates[..|candidates| - 1], rejected, key, resource);
    }
  }

  /** The revisions of one key grow along a batch and are not older than its quarantine entry. */
  ghost predicate Progressing(quarantine: map<string, int>, candidates: seq<Candidate>, key: string) {
    && (forall i :: 0 <= i < |candidates| && candidates[i].key == key && key in quarantine ==>
          quarantine[key] <= candidates[i].revision)
    && (forall i, j :: 0 <= i < j < |candidates| && candidates[i].key == key && candidates[j].key == key ==>
          candidates[i].revision <= candidates[j].revision)
  }

  /** The last verdict on a key decides whether it is quarantined, and at which revision. */
  lemma {:induction false} JudgedKey(quarantine: map<string, int>, candidates: seq<Candidate>, rejected: set<nat>, key: string)
    requires Progressing(quarantine, candidates, key)
    ensures var pos := LastPos(candidates, key);
            var after := Judged(quarantine, candidates, rejected);
            if pos == -1 then (key in after <==> key in quarantine) && (key in after ==> after[key] == quarantine[key])
            else if pos in rejected then key in after && after[key] == candidates[pos].revision
            else key !in after
  {
    if candidates != [] {
      var n := |candidates| - 1;
      var front := candidates[..n];
      assert Progressing(quarantine, front, key) by {
        assert forall i :: 0 <= i < n ==> front[i] == candidates[i];
      }
      JudgedKey(quarantine, front, rejected, key);
      var before, last, pos := Judged(quarantine, front, rejected), candidates[n], LastPos(front, key);
      assert LastPos(candidates, key) == if last.key == key then n else pos;
      if last.key == key && key in before {
        assert before[key] == if pos == -1 then quarantine[key] else candidates[pos].revision;
        assert before[key] <= last.revision;
      }
      JudgedNext(before, last.key, last.revision, n in rejected, key);
    }
  }

  /** One verdict, seen by one key. */
  lemma JudgedNext(before: map<string, int>, judged: string, revision: int, isRejected: bool, key: string)
    requires judged == key && key in before ==> before[key] <= revision
    ensures var after := if isRejected then RecordQuarantine(before, judged, revision) else ClearQuarantine(before, judged, revision);
      if judged != key then (key in after <==> key in before) && (key in after ==> after[key] == before[key])
      else if isRejected then key in after && after[key] == revision
      else key !in after
  {
  }

  lemma {:induction false} KnownKey(known: set<string>, candidates: seq<Candidate>, key: string)
    ensures var pos := LastPos(candidates, key);
            key in Known(known, candidates) <==>
            if pos == -1 then key in known else !candidates[pos].mutation.kind.Delete?
  {
    if candidates != [] {
      KnownKey(known, candidates[..|candidates| - 1], key);
    }
  }

  lemma {:induction false} MaxRevisionBounded(revision: int, candidates: seq<Candidate>)
    requires forall i :: 0 <= i < |candidates| ==> candidates[i].revision <= revision
    ensures MaxRevision(revision, candidates) == revision
  {
    if candidates != [] {
      MaxRevisionBounded(revision, candidates[..|candidates| - 1]);
    }
  }

  lemma {:induction false} MaxRevisionGrows(revision: int, candidates: seq<Candidate>)
    ensures revision <= MaxRevision(revision, candidates)
  {
    if candidates != [] {
      MaxRevisionGrows(revision, candidates[..|candidates| - 1]);
    }
  }

  lemma {:induction false} EventKeys(source: Source, history: History, after: nat, upto: nat)
    requires after <= upto <= |history| && AliasFree(source, history)
    ensures forall i :: 0 <= i < |Events(history, after, upto)| ==> Events(history, after, upto)[i].kv.key != source.alias
  {
    if after < upto {
      EventKeys(source, history, after, upto - 1);
    }
  }

  lemma AliasAbsent(source: Source, history: History, revision: nat)
    requires revision <= |history| && AliasFree(source, history)
    ensures source.alias !in At(history, revision)
  {
    EventKeys(source, history, 0, revision);
    LastEventMember(Events(history, 0, revision), source.alias);
    ReplayKey(map[], Events(history, 0, revision), source.alias);
  }

  /** In a batch whose keys avoid the alias, an unambiguous key has its resource to itself. */
  lemma SoleKey(schema: Schema, source: Source, history: History, events: seq<WatchEvent>, header: int, key: string)
    requires source.Faithful(schema) && Unambiguous(source, history, key)
    requires AliasFree(source, history) ==> forall i :: 0 <= i < |events| ==> events[i].kv.key != source.alias
    ensures Sole(source.Candidates(events, header), key, source.managed(key).value)
  {
    var candidates := source.Candidates(events, header);
    CandidatesMembers(source, events, header);
    forall i | 0 <= i < |candidates|
      ensures candidates[i].resource == source.managed(key).value <==> candidates[i].key == key
    {
      assert candidates[i] in candidates;
      assert From(source, events, header, candidates[i]);
    }
  }

  // ----- every allowed step keeps the invariant -----

  lemma PutsOrdered(kvs: seq<KeyValue>, contents: Contents, source: Source, header: int)
    requires SnapshotOf(source, kvs, contents)
    requires forall key :: key in contents ==> contents[key].key == key
    ensures forall key :: var last := LastEvent(Puts(kvs), key);
              && (last.Some? ==> key in contents && last.value == WatchEvent(Put, contents[key]))
              && (last.None? && source.managed(key).Some? ==> key !in contents)
  {
    forall key
      ensures var last := LastEvent(Puts(kvs), key);
              && (last.Some? ==> key in contents && last.value == WatchEvent(Put, contents[key]))
              && (last.None? && source.managed(key).Some? ==> key !in contents)
    {
      LastEventMember(Puts(kvs), key);
    }
  }

  /** The modification revision of a key is the revision of its last event, so it never goes back. */
  lemma ModRevisionGrows(history: History, from: nat, to: nat, key: string)
    requires from <= to <= |history| && key in At(history, to)
    ensures if LastEvent(Events(history, from, to), key).Some? then from < At(history, to)[key].modRevision
            else key in At(history, from) && At(history, to)[key] == At(history, from)[key]
  {
    AtLater(history, from, to);
    ReplayKey(At(history, from), Events(history, from, to), key);
    LastEventMember(Events(history, from, to), key);
    EventsOrdered(history, from, to);
  }

  lemma UnmanagedHasNoCandidate(source: Source, events: seq<WatchEvent>, header: int, key: string)
    requires source.managed(key).None?
    ensures LastPos(source.Candidates(events, header), key) == -1
  {
    var candidates := source.Candidates(events, header);
    CandidatesMembers(source, events, header);
    forall i | 0 <= i < |candidates| ensures candidates[i].key != key {
      assert From(source, events, header, candidates[i]);
    }
  }

  /** A key's only candidate in a snapshot carries the value and revision etcd has for it. */
  lemma SnapshotCandidate(source: Source, history: History, kvs: seq<KeyValue>, revision: nat, key: string)
    requires revision <= |history| && SnapshotOf(source, kvs, At(history, revision))
    ensures var candidates := source.Candidates(Puts(kvs), revision);
            var pos := LastPos(candidates, key);
            && (source.managed(key).None? ==> pos == -1)
            && (source.managed(key).Some? ==> (pos == -1 <==> key !in At(history, revision)))
            && (pos >= 0 ==>
                  && key in At(history, revision)
                  && candidates[pos].mutation.kind == Put
                  && candidates[pos].mutation.value == At(history, revision)[key].value
                  && candidates[pos].revision == At(history, revision)[key].modRevision)
            && forall i :: 0 <= i < |candidates| && candidates[i].key == key ==> candidates[i] == candidates[pos]
  {
    var contents := At(history, revision);
    var candidates := source.Candidates(Puts(kvs), revision);
    forall k { AtEntries(history, revision, k); }
    PutsOrdered(kvs, contents, source, revision);
    if source.managed(key).Some? {
      LastCandidate(source, Puts(kvs), revision, key);
    } else {
      UnmanagedHasNoCandidate(source, Puts(kvs), revision, key);
    }
    CandidatesMembers(source, Puts(kvs), revision);
    forall i | 0 <= i < |candidates| && candidates[i].key == key
      ensures candidates[i] == candidates[LastPos(candidates, key)]
    {
      assert From(source, Puts(kvs), revision, candidates[i]);
      assert From(source, Puts(kvs), revision, candidates[LastPos(candidates, key)]);
    }
  }

  lemma SnapshotJudges(source: Source, history: History, replica: Replica, kvs: seq<KeyValue>, revision: nat,
                       rejected: set<nat>, key: string)
    requires Inv(source, history, replica)
    requires replica.lastRevision <= revision <= |history| && SnapshotOf(source, kvs, At(history, revision))
    ensures var candidates := source.Candidates(Puts(kvs), revision);
            var pos := LastPos(candidates, key);
            var after := Judged(Unexpired(replica.quarantine, Known({}, candidates), revision), candidates, rejected);
            && (key in after <==> pos in rejected)
            && (key in after ==> key in At(history, revision) && after[key] == At(history, revision)[key].modRevision)
  {
    var candidates := source.Candidates(Puts(kvs), revision);
    var quarantine := Unexpired(replica.quarantine, Known({}, candidates), revision);
    SnapshotCandidate(source, history, kvs, revision, key);
    KnownKey({}, candidates, key);
    assert Progressing(quarantine, candidates, key) by {
      if key in quarantine && LastPos(candidates, key) >= 0 {
        ModRevisionGrows(history, replica.lastRevision, revision, key);
      }
    }
    JudgedKey(quarantine, candidates, rejected, key);
  }

  lemma SnapshotMirrors(schema: Schema, source: Source, history: History, replica: Replica, kvs: seq<KeyValue>,
                        revision: nat, rejected: set<nat>, key: string)
    requires source.Faithful(schema) && Inv(source, history, replica)
    requires replica.lastRevision <= revision <= |history| && SnapshotOf(source, kvs, At(history, revision))
    requires Unambiguous(source, history, key)
    requires LastPos(source.Candidates(Puts(kvs), revision), key) !in rejected
    ensures var after := AfterSnapshot(schema, source, replica, kvs, revision, rejected);
            SameValue(after.rows, source.managed(key).value, At(history, revision), key)
  {
    var candidates := source.Candidates(Puts(kvs), revision);
    var resource := source.managed(key).value;
    if AliasFree(source, history) {
      AliasAbsent(source, history, revision);
    }
    SoleKey(schema, source, history, Puts(kvs), revision, key);
    SnapshotCandidate(source, history, kvs, revision, key);
    WrittenRow(schema.Cleared(replica.rows, Resources(candidates, rejected)), candidates, rejected, key, resource);
  }

  lemma SnapshotKeepsInv(schema: Schema, source: Source, history: History, replica: Replica, step: Step)
    requires source.Faithful(schema) && Inv(source, history, replica)
    requires step.SnapshotApplied? && Allowed(schema, source, history, replica, step)
    ensures var after := Next(schema, source, replica, step);
            Inv(source, history, after) && after.synced && after.lastRevision == step.revision
  {
    var SnapshotApplied(kvs, revision, rejected) := step;
    var after := Next(schema, source, replica, step);
    var candidates := source.Candidates(Puts(kvs), revision);
    forall key ensures
      && (Unambiguous(source, history, key) && key !in after.quarantine ==>
            SameValue(after.rows, source.managed(key).value, At(history, revision), key))
      && (key in after.quarantine ==>
            key in At(history, revision) && after.quarantine[key] == At(history, revision)[key].modRevision <= revision)
      && (key in after.knownKeys <==> source.managed(key).Some? && key in At(history, revision))
    {
      SnapshotJudges(source, history, replica, kvs, revision, rejected, key);
      SnapshotCandidate(source, history, kvs, revision, key);
      KnownKey({}, candidates, key);
      AtEntries(history, revision, key);
      if Unambiguous(source, history, key) && key !in after.quarantine {
        SnapshotMirrors(schema, source, history, replica, kvs, revision, rejected, key);
      }
    }
  }

  lemma {:induction false} CandidatesOrdered(source: Source, events: seq<WatchEvent>, header: int, after: nat, upto: int)
    requires Ordered(events, after, upto)
    ensures var candidates := source.Candidates(events, header);
            && (forall i :: 0 <= i < |candidates| ==> after < candidates[i].revision <= upto)
            && (forall i, j :: 0 <= i < j < |candidates| ==> candidates[i].revision <= candidates[j].revision)
            && (candidates != [] ==> candidates[|candidates| - 1].revision <= events[|events| - 1].kv.modRevision)
  {
    if events != [] {
      var n := |events| - 1;
      assert forall i :: 0 <= i < n ==> events[..n][i] == events[i];
      CandidatesOrdered(source, events[..n], header, after, upto);
    }
  }

  /** The watch step seen from one key, managed or not. */
  lemma WatchKey(schema: Schema, source: Source, history: History, replica: Replica, upto: nat, rejected: set<nat>, key: string)
    requires source.Faithful(schema) && Inv(source, history, replica) && replica.synced
    requires replica.lastRevision <= upto <= |history|
    ensures var candidates := source.Candidates(Events(history, replica.lastRevision, upto), upto);
            var quarantine := Judged(replica.quarantine, candidates, rejected);
            var contents := At(history, upto);
            && (key in quarantine ==> quarantine[key] <= upto && (key in contents ==> quarantine[key] <= contents[key].modRevision))
            && (key in Known(source.ManagedOnly(replica.knownKeys), candidates) <==> source.managed(key).Some? && key in contents)
            && (Unambiguous(source, history, key) && key !in quarantine ==>
                  SameValue(Written(replica.rows, candidates, rejected), source.managed(key).value, contents, key))
  {
    var last := replica.lastRevision;
    var events := Events(history, last, upto);
    var candidates := source.Candidates(events, upto);
    EventsOrdered(history, last, upto);
    CandidatesOrdered(source, events, upto, last, upto);
    JudgedKey(replica.quarantine, candidates, rejected, key);
    KnownKey(source.ManagedOnly(replica.knownKeys), candidates, key);
    AtLater(history, last, upto);
    ReplayKey(At(history, last), events, key);
    LastEventMember(events, key);
    if key in At(history, upto) {
      ModRevisionGrows(history, last, upto, key);
    }
    if source.managed(key).Some? {
      LastCandidate(source, events, upto, key);
    } else {
      UnmanagedHasNoCandidate(source, events, upto, key);
    }
    if Unambiguous(source, history, key) {
      if AliasFree(source, history) {
        EventKeys(source, history, last, upto);
      }
      SoleKey(schema, source, history, events, upto, key);
      WrittenRow(replica.rows, candidates, rejected, key, source.managed(key).value);
    }
  }

  lemma WatchKeepsInv(schema: Schema, source: Source, history: History, replica: Replica, step: Step)
    requires source.Faithful(schema) && Inv(source, history, replica)
    requires step.WatchApplied? && Allowed(schema, source, history, replica, step)
    ensures var after := Next(schema, source, replica, step);
            Inv(source, history, after) && after.synced && after.lastRevision == step.revision
  {
    var WatchApplied(events, revision, rejected) := step;
    var candidates := source.Candidates(events, revision);
    EventsOrdered(history, replica.lastRevision, revision);
    CandidatesOrdered(source, Events(history, replica.lastRevision, revision), revision, replica.lastRevision, revision);
    MaxRevisionBounded(revision, candidates);
    forall key {
      WatchKey(schema, source, history, replica, revision, rejected, key);
    }
  }

  // ----- whole runs -----

  /** The states of a run, the start first. */
  ghost predicate IsRun(schema: Schema, source: Source, history: History, steps: seq<Step>, states: seq<Replica>) {
    && |states| == |steps| + 1
    && states[0].quarantine == map[] && states[0].lastRevision == 0 && !states[0].synced
    && forall i :: 0 <= i < |steps| ==>
         Allowed(schema, source, history, states[i], steps[i]) && states[i + 1] == Next(schema, source, states[i], steps[i])
  }

  lemma StepKeepsInv(schema: Schema, source: Source, history: History, replica: Replica, step: Step)
    requires source.Faithful(schema) && Inv(source, history, replica)
    requires Allowed(schema, source, history, replica, step)
    ensures Inv(source, history, Next(schema, source, replica, step))
  {
    match step
    case SnapshotApplied(_, _, _) => SnapshotKeepsInv(schema, source, history, replica, step);
    case WatchApplied(_, _, _) => WatchKeepsInv(schema, source, history, replica, step);
    case ApplyFailed(_) =>
  }

  lemma {:induction false} RunKeepsInv(schema: Schema, source: Source, history: History,
                                       steps: seq<Step>, states: seq<Replica>, n: nat)
    requires source.Faithful(schema) && IsRun(schema, source, history, steps, states) && n <= |steps|
    ensures Inv(source, history, states[n])
  {
    if n > 0 {
      RunKeepsInv(schema, source, history, steps, states, n - 1);
      StepKeepsInv(schema, source, history, states[n - 1], steps[n - 1]);
    }
  }

  /**
   * In every run, after every successful apply, every managed key outside the quarantine whose
   * resource is its own has in the store exactly etcd's value, or absence, at the last revision.
   */
  lemma RunMirrors(schema: Schema, source: Source, history: History, steps: seq<Step>, states: seq<Replica>, n: nat)
    requires source.Faithful(schema) && IsRun(schema, source, history, steps, states) && n < |steps|
    requires !steps[n].ApplyFailed?
    ensures states[n + 1].lastRevision == steps[n].revision <= |history|
    ensures Mirror(source, history, states[n + 1])
    ensures KnownExactly(source, history, states[n + 1])
  {
    RunKeepsInv(schema, source, history, steps, states, n);
    match steps[n]
    case SnapshotApplied(_, _, _) => SnapshotKeepsInv(schema, source, history, states[n], steps[n]);
    case WatchApplied(_, _, _) => WatchKeepsInv(schema, source, history, states[n], steps[n]);
  }

  // ----- the resource with two spellings -----

  /** The position of the last candidate that names a resource, or -1. */
  function LastNaming(candidates: seq<Candidate>, resource: ResourceKey): (pos: int)
    ensures -1 <= pos < |candidates|
    ensures 0 <= pos ==> candidates[pos].resource == resource
    ensures forall i :: pos < i < |candidates| ==> candidates[i].resource != resource
  {
    if candidates == [] then -1
    else if candidates[|candidates| - 1].resource == resource then |candidates| - 1
    else LastNaming(candidates[..|candidates| - 1], resource)
  }

  /** The last candidate that names a resource decides its row, whatever key it has. */
  lemma {:induction false} WrittenByLast(rows: Rows, candidates: seq<Candidate>, rejected: set<nat>, resource: ResourceKey)
    ensures var pos := LastNaming(candidates, resource);
            var after := Written(rows, candidates, rejected);
            && (pos == -1 ==> (resource in after <==> resource in rows) && (resource in rows ==> after[resource] == rows[resource]))
            && (pos >= 0 && pos !in rejected ==>
                  if candidates[pos].mutation.kind.Put?
                  then resource in after && after[resource] == candidates[pos].mutation.value
                  else resource !in after)
  {
    if candidates != [] {
      WrittenByLast(rows, candidates[..|candidates| - 1], rejected, resource);
    }
  }

  /** The key by which a resource was tried last in a run; a snapshot forgets what was before it. */
  function LastSpelling(source: Source, steps: seq<Step>, resource: ResourceKey): Option<string> {
    if steps == [] then None
    else
      var before := LastSpelling(source, steps[..|steps| - 1], resource);
      match steps[|steps| - 1]
      case SnapshotApplied(kvs, revision, _) => SpellingIn(source.Candidates(Puts(kvs), revision), resource, None)
      case WatchApplied(events, revision, _) => SpellingIn(source.Candidates(events, revision), resource, before)
      case ApplyFailed(_) => before
  }

  function SpellingIn(candidates: seq<Candidate>, resource: ResourceKey, before: Option<string>): Option<string> {
    var pos := LastNaming(candidates, resource);
    if pos == -1 then before else Some(candidates[pos].key)
  }

  /** Two keys that name one resource. */
  ghost predicate Twins(source: Source, key: string, twin: string) {
    key != twin && source.managed(key).Some? && source.managed(key) == source.managed(twin)
  }

  /** The row is that of the key by which the resource was tried last. */
  ghost predicate Spelled(source: Source, contents: Contents, rows: Rows, spelling: Option<string>, key: string, twin: string)
    requires Twins(source, key, twin)
  {
    var resource := source.managed(key).value;
    match spelling
    case None => resource !in rows && key !in contents && twin !in contents
    case Some(k) => (k == key || k == twin) && SameValue(rows, resource, contents, k)
  }

  /** A candidate that names the resource has one of its two keys. */
  lemma OneOfTwins(schema: Schema, source: Source, events: seq<WatchEvent>, header: int, key: string, twin: string, i: nat)
    requires source.Faithful(schema) && Twins(source, key, twin) && i < |source.Candidates(events, header)|
    ensures var candidate := source.Candidates(events, header)[i];
      candidate.resource == source.managed(key).value <==> candidate.key == key || candidate.key == twin
  {
    CandidatesMembers(source, events, header);
    assert From(source, events, header, source.Candidates(events, header)[i]);
  }

  /** The last candidate of the resource is the last one of its own key. */
  lemma LastOfItsKey(schema: Schema, source: Source, events: seq<WatchEvent>, header: int, key: string, twin: string)
    requires source.Faithful(schema) && Twins(source, key, twin)
    ensures var candidates := source.Candidates(events, header);
      var pos := LastNaming(candidates, source.managed(key).value);
      if pos == -1 then LastPos(candidates, key) == -1 && LastPos(candidates, twin) == -1
      else (candidates[pos].key == key || candidates[pos].key == twin) && LastPos(candidates, candidates[pos].key) == pos
  {
    var candidates := source.Candidates(events, header);
    forall i | 0 <= i < |candidates|
      ensures candidates[i].resource == source.managed(key).value <==> candidates[i].key == key || candidates[i].key == twin
    {
      OneOfTwins(schema, source, events, header, key, twin, i);
    }
  }

  lemma SnapshotSpells(schema: Schema, source: Source, history: History, replica: Replica, step: Step, key: string, twin: string)
    requires source.Faithful(schema) && Inv(source, history, replica) && Twins(source, key, twin)
    requires step.SnapshotApplied? && Allowed(schema, source, history, replica, step)
    requires key !in Next(schema, source, replica, step).quarantine && twin !in Next(schema, source, replica, step).quarantine
    ensures var resource := source.managed(key).value;
      Spelled(source, At(history, step.revision), Next(schema, source, replica, step).rows,
              SpellingIn(source.Candidates(Puts(step.kvs), step.revision), resource, None), key, twin)
  {
    var SnapshotApplied(kvs, revision, rejected) := step;
    var candidates := source.Candidates(Puts(kvs), revision);
    var resource := source.managed(key).value;
    LastOfItsKey(schema, source, Puts(kvs), revision, key, twin);
    SnapshotCandidate(source, history, kvs, revision, key);
    SnapshotCandidate(source, history, kvs, revision, twin);
    SnapshotJudges(source, history, replica, kvs, revision, rejected, key);
    SnapshotJudges(source, history, replica, kvs, revision, rejected, twin);
    WrittenByLast(schema.Cleared(replica.rows, Resources(candidates, rejected)), candidates, rejected, resource);
  }

  lemma WatchSpells(schema: Schema, source: Source, history: History, replica: Replica, step: Step, spelling: Option<string>, key: string, twin: string)
    requires source.Faithful(schema) && Inv(source, history, replica) && Twins(source, key, twin)
    requires step.WatchApplied? && Allowed(schema, source, history, replica, step)
    requires key !in replica.quarantine && twin !in replica.quarantine ==>
               Spelled(source, At(history, replica.lastRevision), replica.rows, spelling, key, twin)
    requires key !in Next(schema, source, replica, step).quarantine && twin !in Next(schema, source, replica, step).quarantine
    ensures var resource := source.managed(key).value;
      Spelled(source, At(history, step.revision), Next(schema, source, replica, step).rows,
              SpellingIn(source.Candidates(step.events, step.revision), resource, spelling), key, twin)
  {
    var WatchApplied(_, upto, rejected) := step;
    var last := replica.lastRevision;
    var events := Events(history, last, upto);
    var candidates := source.Candidates(events, upto);
    var resource := source.managed(key).value;
    LastOfItsKey(schema, source, events, upto, key, twin);
    TwinStep(source, history, replica, upto, rejected, key);
    TwinStep(source, history, replica, upto, rejected, twin);
    WrittenByLast(replica.rows, candidates, rejected, resource);
  }

  /** One key through a watch step: its verdict and its contents follow its last candidate. */
  lemma TwinStep(source: Source, history: History, replica: Replica, upto: nat, rejected: set<nat>, key: string)
    requires Inv(source, history, replica) && replica.synced && replica.lastRevision <= upto <= |history| && source.managed(key).Some?
    ensures var candidates := source.Candidates(Events(history, replica.lastRevision, upto), upto);
      var pos := LastPos(candidates, key);
      var quarantine := Judged(replica.quarantine, candidates, rejected);
      var before, after := At(history, replica.lastRevision), At(history, upto);
      if pos == -1 then (key in quarantine <==> key in replica.quarantine) && (key in after <==> key in before) && (key in after ==> after[key] == before[key])
      else
        && (key in quarantine <==> pos in rejected)
        && if candidates[pos].mutation.kind.Put? then key in after && after[key].value == candidates[pos].mutation.value else key !in after
  {
    var last := replica.lastRevision;
    var events := Events(history, last, upto);
    EventsOrdered(history, last, upto);
    CandidatesOrdered(source, events, upto, last, upto);
    JudgedKey(replica.quarantine, source.Candidates(events, upto), rejected, key);
    AtLater(history, last, upto);
    ReplayKey(At(history, last), events, key);
    LastCandidate(source, events, upto, key);
  }

  /** In every state of a run that is in step, with both keys outside the quarantine, the last spelling decides. */
  lemma {:induction false} RunSpells(schema: Schema, source: Source, history: History, steps: seq<Step>, states: seq<Replica>, n: nat,
                                     key: string, twin: string)
    requires source.Faithful(schema) && IsRun(schema, source, history, steps, states) && n <= |steps| && Twins(source, key, twin)
    requires states[n].synced && key !in states[n].quarantine && twin !in states[n].quarantine
    ensures Inv(source, history, states[n])
    ensures Spelled(source, At(history, states[n].lastRevision), states[n].rows,
                    LastSpelling(source, steps[..n], source.managed(key).value), key, twin)
  {
    RunKeepsInv(schema, source, history, steps, states, n);
    var m := n - 1;
    RunKeepsInv(schema, source, history, steps, states, m);
    assert steps[..n][..m] == steps[..m] && steps[..n][m] == steps[m];
    match steps[m]
    case SnapshotApplied(_, _, _) =>
      SnapshotKeepsInv(schema, source, history, states[m], steps[m]);
      SnapshotSpells(schema, source, history, states[m], steps[m], key, twin);
    case WatchApplied(_, _, _) =>
      if key !in states[m].quarantine && twin !in states[m].quarantine {
        RunSpells(schema, source, history, steps, states, m, key, twin);
      }
      WatchKeepsInv(schema, source, history, states[m], steps[m]);
      WatchSpells(schema, source, history, states[m], steps[m], LastSpelling(source, steps[..m], source.managed(key).value), key, twin);
  }

  /** Etcd has the same under both keys: nothing, or one value. */
  predicate SameUnder(contents: Contents, key: string, twin: string) {
    (key in contents <==> twin in contents) && (key in contents && twin in contents ==> contents[key].value == contents[twin].value)
  }

  /**
   * The mirror of a resource with two keys. In every run, after every successful apply that leaves
   * both keys outside the quarantine, both are mirrored exactly when etcd has the same under both;
   * one of them is mirrored exactly when it was tried last or etcd has the same under both.
   */
  lemma AliasedKeysMirrored(schema: Schema, source: Source, history: History, steps: seq<Step>, states: seq<Replica>, n: nat,
                            key: string, twin: string)
    requires source.Faithful(schema) && IsRun(schema, source, history, steps, states) && n < |steps| && !steps[n].ApplyFailed?
    requires Twins(source, key, twin) && key !in states[n + 1].quarantine && twin !in states[n + 1].quarantine
    ensures 0 <= states[n + 1].lastRevision <= |history|
    ensures var s := states[n + 1];
      var resource, contents := source.managed(key).value, At(history, s.lastRevision);
      && (SameValue(s.rows, resource, contents, key) && SameValue(s.rows, resource, contents, twin) <==> SameUnder(contents, key, twin))
      && (SameValue(s.rows, resource, contents, key) <==>
            LastSpelling(source, steps[..n + 1], resource) == Some(key) || SameUnder(contents, key, twin))
  {
    assert states[n + 1] == Next(schema, source, states[n], steps[n]);
    RunSpells(schema, source, history, steps, states, n + 1, key, twin);
  }

  /** A run that loses a row: the plugin list is set, its twin is set and removed, and etcd still has the list. */
  lemma TwinRemovesRow(schema: Schema, source: Source, key: string, twin: string, value: Value, other: Value)
    returns (history: History, steps: seq<Step>, states: seq<Replica>)
    requires source.Faithful(schema) && Twins(source, key, twin)
    requires schema.decode(source.mutationKey(key)).Some? && schema.decode(source.mutationKey(twin)).Some?
    ensures history == [[Set(key, value)], [Set(twin, other)], [Remove(twin)]]
    ensures IsRun(schema, source, history, steps, states) && |steps| == 2 && steps[1].WatchApplied? && states[2].lastRevision == 3
    ensures states[2].quarantine == map[] && key in At(history, 3) && source.managed(key).value !in states[2].rows
  {
    history := [[Set(key, value)], [Set(twin, other)], [Remove(twin)]];
    var events := Events(history, 0, 3);
    steps := [SnapshotApplied([], 0, {}), WatchApplied(events, 3, {})];
    var start := Replica(map[], {}, map[], 0, false);
    var synced := Next(schema, source, start, steps[0]);
    states := [start, synced, Next(schema, source, synced, steps[1])];
    EventsOfThree(history, key, twin, value, other);
    CandidatesOfThree(source, key, twin, value, other);
    EmptySnapshot(schema, source, history);
    WatchKeepsInv(schema, source, history, synced, steps[1]);
    NothingQuarantined(source.Candidates(events, 3));
    WrittenByLast(synced.rows, source.Candidates(events, 3), {}, source.managed(key).value);
  }

  /** The snapshot of etcd before its first revision. */
  lemma EmptySnapshot(schema: Schema, source: Source, history: History)
    requires source.Faithful(schema)
    ensures var start, step := Replica(map[], {}, map[], 0, false), SnapshotApplied([], 0, {});
      && Allowed(schema, source, history, start, step)
      && Next(schema, source, start, step) == Replica(map[], {}, map[], 0, true)
      && Inv(source, history, Next(schema, source, start, step))
  {
    var start, step := Replica(map[], {}, map[], 0, false), SnapshotApplied([], 0, {});
    assert Puts([]) == [];
    assert source.Candidates([], 0) == [];
    SnapshotKeepsInv(schema, source, history, start, step);
  }

  lemma {:induction false} NothingQuarantined(candidates: seq<Candidate>)
    ensures Judged(map[], candidates, {}) == map[]
  {
    if candidates != [] {
      NothingQuarantined(candidates[..|candidates| - 1]);
    }
  }

  lemma EventsOfThree(history: History, key: string, twin: string, value: Value, other: Value)
    requires history == [[Set(key, value)], [Set(twin, other)], [Remove(twin)]] && key != twin
    ensures Events(history, 0, 3) == [WatchEvent(Put, KeyValue(key, value, 1)), WatchEvent(Put, KeyValue(twin, other, 2)), WatchEvent(Delete, KeyValue(twin, "", 3))]
    ensures key in At(history, 3)
  {
    assert Events(history, 0, 0) == [];
    assert Events(history, 0, 1) == [WatchEvent(Put, KeyValue(key, value, 1))];
    assert Events(history, 0, 2) == [WatchEvent(Put, KeyValue(key, value, 1)), WatchEvent(Put, KeyValue(twin, other, 2))];
    var events := Events(history, 0, 3);
    ReplayKey(map[], events, key);
    assert events[..2][..1] == [events[0]];
    assert LastEvent(events[..2][..1], key) == Some(events[0]);
    assert LastEvent(events[..2], key) == Some(events[0]);
  }

  lemma CandidatesOfThree(source: Source, key: string, twin: string, value: Value, other: Value)
    requires Twins(source, key, twin)
    ensures var events := [WatchEvent(Put, KeyValue(key, value, 1)), WatchEvent(Put, KeyValue(twin, other, 2)), WatchEvent(Delete, KeyValue(twin, "", 3))];
      source.Candidates(events, 3) == [source.CandidateOf(events[0], 3), source.CandidateOf(events[1], 3), source.CandidateOf(events[2], 3)]
  {
    var events := [WatchEvent(Put, KeyValue(key, value, 1)), WatchEvent(Put, KeyValue(twin, other, 2)), WatchEvent(Delete, KeyValue(twin, "", 3))];
    assert events[..2][..1][..0] == [];
    assert source.Candidates(events[..2][..1], 3) == [source.CandidateOf(events[0], 3)];
    assert source.Candidates(events[..2], 3) == [source.CandidateOf(events[0], 3), source.CandidateOf(events[1], 3)];
  }

  /** The applied revision never goes back, even when a response is stale. */
  lemma RevisionNeverDecreases(schema: Schema, source: Source, replica: Replica, step: Step)
    ensures replica.lastRevision <= Next(schema, source, replica, step).lastRevision
  {
    if step.WatchApplied? {
      MaxRevisionGrows(Max(replica.lastRevision, step.revision), source.Candidates(step.events, step.revision));
    }
  }

  // ----- what the quarantine means -----

  /** The store's verdict the last time a key's change was tried. */
  datatype Trial = Trial(revision: int, rejected: bool)

  function Tried(trials: map<string, Trial>, candidates: seq<Candidate>, rejected: set<nat>): map<string, Trial> {
    if candidates == [] then trials
    else
      var n := |candidates| - 1;
      Tried(trials, candidates[..n], rejected)[candidates[n].key := Trial(candidates[n].revision, n in rejected)]
  }

  /** The last verdict on each key after a run; a snapshot tries every key etcd still has. */
  function Trials(source: Source, steps: seq<Step>): map<string, Trial> {
    if steps == [] then map[]
    else
      var before := Trials(source, steps[..|steps| - 1]);
      match steps[|steps| - 1]
      case SnapshotApplied(kvs, revision, rejected) => Tried(map[], source.Candidates(Puts(kvs), revision), rejected)
      case WatchApplied(events, revision, rejected) => Tried(before, source.Candidates(events, revision), rejected)
      case ApplyFailed(_) => before
  }

  lemma {:induction false} TriedKey(trials: map<string, Trial>, candidates: seq<Candidate>, rejected: set<nat>, key: string)
    ensures var pos := LastPos(candidates, key);
            var after := Tried(trials, candidates, rejected);
            if pos == -1 then (key in after <==> key in trials) && (key in after ==> after[key] == trials[key])
            else key in after && after[key] == Trial(candidates[pos].revision, pos in rejected)
  {
    if candidates != [] {
      TriedKey(trials, candidates[..|candidates| - 1], rejected, key);
    }
  }

  /** The revision of a key's last event so far, or 0. */
  function LastTouched(history: History, revision: nat, key: string): int
    requires revision <= |history|
  {
    var last := LastEvent(Events(history, 0, revision), key);
    if last.None? then 0 else last.value.kv.modRevision
  }

  /** A key is quarantined exactly when its latest change was rejected, and at that change's revision. */
  ghost predicate Accurate(history: History, replica: Replica, trials: map<string, Trial>) {
    && 0 <= replica.lastRevision <= |history|
    && forall key ::
      && (key in replica.quarantine <==> key in trials && trials[key].rejected)
      && (key in replica.quarantine ==> replica.quarantine[key] == trials[key].revision)
      && (key in trials ==> trials[key].revision == LastTouched(history, replica.lastRevision, key))
  }

  lemma LastTouchedPresent(history: History, revision: nat, key: string)
    requires revision <= |history| && key in At(history, revision)
    ensures LastTouched(history, revision, key) == At(history, revision)[key].modRevision
  {
    ReplayKey(map[], Events(history, 0, revision), key);
  }

  lemma {:induction false} LastEventConcat(first: seq<WatchEvent>, second: seq<WatchEvent>, key: string)
    ensures LastEvent(first + second, key) ==
            if LastEvent(second, key).Some? then LastEvent(second, key) else LastEvent(first, key)
  {
    if second == [] {
      assert first + second == first;
    } else {
      assert (first + second)[..|first + second| - 1] == first + second[..|second| - 1];
      LastEventConcat(first, second[..|second| - 1], key);
    }
  }

  lemma SnapshotAccurate(schema: Schema, source: Source, history: History, replica: Replica, step: Step)
    requires source.Faithful(schema) && Inv(source, history, replica)
    requires step.SnapshotApplied? && Allowed(schema, source, history, replica, step)
    ensures Accurate(history, Next(schema, source, replica, step),
                     Tried(map[], source.Candidates(Puts(step.kvs), step.revision), step.rejected))
  {
    SnapshotKeepsInv(schema, source, history, replica, step);
    var SnapshotApplied(kvs, revision, rejected) := step;
    var after := Next(schema, source, replica, step);
    var trials := Tried(map[], source.Candidates(Puts(kvs), revision), rejected);
    forall key
      ensures && (key in after.quarantine <==> key in trials && trials[key].rejected)
              && (key in after.quarantine ==> after.quarantine[key] == trials[key].revision)
              && (key in trials ==> trials[key].revision == LastTouched(history, revision, key))
    {
      SnapshotJudges(source, history, replica, kvs, revision, rejected, key);
      SnapshotCandidate(source, history, kvs, revision, key);
      TriedKey(map[], source.Candidates(Puts(kvs), revision), rejected, key);
      if key in At(history, revision) {
        LastTouchedPresent(history, revision, key);
      }
    }
  }

  lemma WatchAccurate(schema: Schema, source: Source, history: History, replica: Replica, step: Step, trials: map<string, Trial>)
    requires source.Faithful(schema) && Inv(source, history, replica)
    requires Accurate(history, replica, trials)
    requires forall key :: key in trials ==> source.managed(key).Some?
    requires step.WatchApplied? && Allowed(schema, source, history, replica, step)
    ensures Accurate(history, Next(schema, source, replica, step),
                     Tried(trials, source.Candidates(step.events, step.revision), step.rejected))
  {
    WatchKeepsInv(schema, source, history, replica, step);
    var last, revision := replica.lastRevision, step.revision;
    var events := Events(history, last, revision);
    var candidates := source.Candidates(events, revision);
    EventsOrdered(history, last, revision);
    CandidatesOrdered(source, events, revision, last, revision);
    EventsConcat(history, 0, last, revision);
    forall key
      ensures var after := Judged(replica.quarantine, candidates, step.rejected);
              var tried := Tried(trials, candidates, step.rejected);
              && (key in after <==> key in tried && tried[key].rejected)
              && (key in after ==> after[key] == tried[key].revision)
              && (key in tried ==> tried[key].revision == LastTouched(history, revision, key))
    {
      JudgedKey(replica.quarantine, candidates, step.rejected, key);
      TriedKey(trials, candidates, step.rejected, key);
      LastEventConcat(Events(history, 0, last), events, key);
      LastEventMember(events, key);
      if source.managed(key).Some? {
        LastCandidate(source, events, revision, key);
      } else {
        UnmanagedHasNoCandidate(source, events, revision, key);
      }
    }
  }

  lemma {:induction false} TriedManaged(source: Source, trials: map<string, Trial>, events: seq<WatchEvent>, header: int,
                                        rejected: set<nat>)
    requires forall key :: key in trials ==> source.managed(key).Some?
    ensures forall key :: key in Tried(trials, source.Candidates(events, header), rejected) ==> source.managed(key).Some?
  {
    forall key | source.managed(key).None? ensures key !in Tried(trials, source.Candidates(events, header), rejected) {
      UnmanagedHasNoCandidate(source, events, header, key);
      TriedKey(trials, source.Candidates(events, header), rejected, key);
    }
  }

  /**
   * After any run a key is quarantined exactly when the last time its latest etcd event or value
   * was tried it was rejected; the entry is that event's revision.
   */
  lemma {:induction false} QuarantineAccurate(schema: Schema, source: Source, history: History,
                                              steps: seq<Step>, states: seq<Replica>, n: nat)
    requires source.Faithful(schema) && IsRun(schema, source, history, steps, states) && n <= |steps|
    ensures Inv(source, history, states[n]) && Accurate(history, states[n], Trials(source, steps[..n]))
    ensures forall key :: key in Trials(source, steps[..n]) ==> source.managed(key).Some?
  {
    RunKeepsInv(schema, source, history, steps, states, n);
    if n > 0 {
      QuarantineAccurate(schema, source, history, steps, states, n - 1);
      RunKeepsInv(schema, source, history, steps, states, n - 1);
      assert steps[..n][..n - 1] == steps[..n - 1];
      var step := steps[n - 1];
      match step
      case SnapshotApplied(kvs, revision, rejected) =>
        SnapshotAccurate(schema, source, history, states[n - 1], step);
        TriedManaged(source, map[], Puts(kvs), revision, rejected);
      case WatchApplied(events, revision, rejected) =>
        WatchAccurate(schema, source, history, states[n - 1], step, Trials(source, steps[..n - 1]));
        TriedManaged(source, Trials(source, steps[..n - 1]), events, revision, rejected);
      case ApplyFailed(_) =>
    }
  }
}

module EtcdClient {
  import opened Basics
  import opened Keys
  import opened ConfigStore
  import opened EtcdHistory
  import opened EtcdReplica

  /** The candidates a retry sends: those the store did not reject. */
  function Pruned(candidates: seq<Candidate>, rejected: set<nat>): seq<Candidate> {
    if candidates == [] then []
    else
      var n := |candidates| - 1;
      Pruned(candidates[..n], rejected) + (if n in rejected then [] else [candidates[n]])
  }

  function Mutations(candidates: seq<Candidate>): (mutations: seq<Mutation>)
    ensures |mutations| == |candidates|
    ensures forall i :: 0 <= i < |candidates| ==> mutations[i] == candidates[i].mutation
  {
    seq(|candidates|, i requires 0 <= i < |candidates| => candidates[i].mutation)
  }

  /** The candidates name keys and resources as their source does. */
  ghost predicate Sourced(source: Source, candidates: seq<Candidate>) {
    forall i :: 0 <= i < |candidates| ==>
      && source.managed(candidates[i].key) == Some(candidates[i].resource)
      && candidates[i].mutation.key == source.mutationKey(candidates[i].key)
  }

  lemma CandidatesSourced(source: Source, events: seq<WatchEvent>, header: int)
    ensures Sourced(source, source.Candidates(events, header))
  {
    var candidates := source.Candidates(events, header);
    CandidatesMembers(source, events, header);
    forall i | 0 <= i < |candidates|
      ensures source.managed(candidates[i].key) == Some(candidates[i].resource)
              && candidates[i].mutation.key == source.mutationKey(candidates[i].key)
    {
      assert From(source, events, header, candidates[i]);
    }
  }

  /** The store decoded what it accepted. */
  lemma {:induction false} AcceptedDecoded(schema: Schema, candidates: seq<Candidate>, rejected: set<nat>)
    requires schema.EachAccepted(Mutations(Pruned(candidates, rejected)))
    ensures Decoded(schema, candidates, rejected)
  {
    if candidates != [] {
      var n := |candidates| - 1;
      var front := Pruned(candidates[..n], rejected);
      var all := Pruned(candidates, rejected);
      assert schema.EachAccepted(Mutations(front)) by {
        assert forall i :: 0 <= i < |front| ==> Mutations(front)[i] == Mutations(all)[i];
      }
      AcceptedDecoded(schema, candidates[..n], rejected);
      if n !in rejected {
        assert schema.Accepts(Mutations(all)[|all| - 1]);
      }
    }
  }

  /** Committing a pruned batch writes exactly the candidates that were not rejected. */
  lemma {:induction false} CommittedIsWritten(schema: Schema, source: Source, rows: Rows, candidates: seq<Candidate>, rejected: set<nat>)
    requires source.Faithful(schema) && Sourced(source, candidates)
    requires Decoded(schema, candidates, rejected)
    ensures ApplyAll(rows, schema.Parse(Mutations(Pruned(candidates, rejected)))) == Written(rows, candidates, rejected)
  {
    if candidates != [] {
      var n := |candidates| - 1;
      var front := candidates[..n];
      CommittedIsWritten(schema, source, rows, front, rejected);
      if n in rejected {
        assert Pruned(candidates, rejected) == Pruned(front, rejected);
      } else {
        assert Mutations(Pruned(candidates, rejected)) == Mutations(Pruned(front, rejected)) + [candidates[n].mutation];
        ApplySent(schema, rows, Mutations(Pruned(front, rejected)), candidates[n].mutation);
      }
    }
  }

  lemma {:induction false} PrunedNothing(candidates: seq<Candidate>)
    ensures Pruned(candidates, {}) == candidates
  {
    if candidates != [] {
      PrunedNothing(candidates[..|candidates| - 1]);
    }
  }

  // ----- when a batch with refused resources is applied after all -----

  /** The positions of a batch that the store refuses at first. */
  ghost function Refused(schema: Schema, rows: Rows, candidates: seq<Candidate>, replaceManaged: bool): set<nat> {
    schema.RefusedBy(rows, Mutations(candidates), BatchOptions(replaceManaged, {}))
  }

  /** The batch without them, the refused resources preserved, as the store then sees it. */
  ghost function Retry(schema: Schema, rows: Rows, candidates: seq<Candidate>, replaceManaged: bool): Batch {
    var refused := Refused(schema, rows, candidates, replaceManaged);
    schema.BatchOf(rows, Mutations(Pruned(candidates, refused)), BatchOptions(replaceManaged, Resources(candidates, refused)))
  }

  /** The store knows the operations, and what it does not refuse takes no lookup key from another consumer. */
  ghost predicate Applicable(schema: Schema, rows: Rows, candidates: seq<Candidate>, replaceManaged: bool) {
    schema.Supported(Mutations(candidates)) && Retry(schema, rows, candidates, replaceManaged).Free()
  }

  lemma {:induction false} PrunedMember(candidates: seq<Candidate>, rejected: set<nat>, j: nat) returns (i: nat)
    requires j < |Pruned(candidates, rejected)|
    ensures i < |candidates| && i !in rejected && Pruned(candidates, rejected)[j] == candidates[i]
  {
    var n := |candidates| - 1;
    if j < |Pruned(candidates[..n], rejected)| {
      i := PrunedMember(candidates[..n], rejected, j);
    } else {
      i := n;
    }
  }

  lemma {:induction false} PrunedKeeps(candidates: seq<Candidate>, rejected: set<nat>, i: nat) returns (j: nat)
    requires i < |candidates| && i !in rejected
    ensures j < |Pruned(candidates, rejected)| && Pruned(candidates, rejected)[j] == candidates[i]
  {
    var n := |candidates| - 1;
    if i < n {
      j := PrunedKeeps(candidates[..n], rejected, i);
    } else {
      j := |Pruned(candidates[..n], rejected)|;
    }
  }

  /** What is left of a batch passes every check that looks at one mutation alone. */
  lemma PrunedAccepted(schema: Schema, candidates: seq<Candidate>, rejected: set<nat>)
    requires forall i :: 0 <= i < |candidates| && !schema.Accepts(candidates[i].mutation) ==> i in rejected
    ensures schema.EachAccepted(Mutations(Pruned(candidates, rejected)))
    ensures schema.Supported(Mutations(candidates)) ==> schema.Supported(Mutations(Pruned(candidates, rejected)))
  {
    var pruned := Pruned(candidates, rejected);
    forall j | 0 <= j < |pruned|
      ensures schema.Accepts(Mutations(pruned)[j])
    {
      var i := PrunedMember(candidates, rejected, j);
    }
    if schema.Supported(Mutations(candidates)) {
      forall entry | entry in schema.Parse(Mutations(pruned))
        ensures !entry.mutation.kind.Unsupported?
      {
        schema.ParsedEntry(Mutations(pruned), entry);
        var i := PrunedMember(candidates, rejected, entry.index);
        schema.ParsedEntry(Mutations(candidates), ParsedMutation(candidates[i].mutation, entry.key, i));
      }
    }
  }

  lemma RefusesUnaccepted(schema: Schema, rows: Rows, candidates: seq<Candidate>, replaceManaged: bool)
    ensures forall i :: 0 <= i < |candidates| && !schema.Accepts(candidates[i].mutation) ==> i in Refused(schema, rows, candidates, replaceManaged)
    ensures forall i :: i in Refused(schema, rows, candidates, replaceManaged) ==> 0 <= i < |candidates|
  {
    schema.CollisionsAreAccepted(rows, Mutations(candidates), BatchOptions(replaceManaged, {}));
  }

  /** The retry is accepted exactly when it takes no lookup key from a consumer whose row stays. */
  lemma RetryIsAcceptable(schema: Schema, rows: Rows, candidates: seq<Candidate>, replaceManaged: bool)
    requires schema.Sound() && NamedRows(rows) && OneOwner(schema.Table(rows))
    ensures var refused := Refused(schema, rows, candidates, replaceManaged);
      schema.Acceptable(rows, Mutations(Pruned(candidates, refused)), BatchOptions(replaceManaged, Resources(candidates, refused))) <==>
      Retry(schema, rows, candidates, replaceManaged).Free()
  {
    var refused := Refused(schema, rows, candidates, replaceManaged);
    RefusesUnaccepted(schema, rows, candidates, replaceManaged);
    PrunedAccepted(schema, candidates, refused);
    schema.FreeIsOneOwner(rows, Mutations(Pruned(candidates, refused)), BatchOptions(replaceManaged, Resources(candidates, refused)));
  }

  /** A batch that is acceptable as it is needs no retry, and would pass it. */
  lemma AcceptableIsFree(schema: Schema, rows: Rows, candidates: seq<Candidate>, replaceManaged: bool)
    requires schema.Sound() && NamedRows(rows) && OneOwner(schema.Table(rows))
    requires schema.Acceptable(rows, Mutations(candidates), BatchOptions(replaceManaged, {}))
    ensures Refused(schema, rows, candidates, replaceManaged) == {} && Retry(schema, rows, candidates, replaceManaged).Free()
  {
    schema.RefusesNothing(rows, Mutations(candidates), BatchOptions(replaceManaged, {}));
    PrunedNothing(candidates);
    assert Resources(candidates, {}) == {};
    RetryIsAcceptable(schema, rows, candidates, replaceManaged);
  }

  datatype BatchResult =
    | BatchApplied(rejected: set<nat>)
    | BatchFailed
    | BadRejection

  class ConfigClient {
    const source: Source
    const store: Store
    var knownKeys: set<string>
    var quarantine: map<string, int>
    var lastRevision: int

    ghost predicate Valid()
      reads this, store
    {
      && store.Valid() && store.schema.Sound()
      && source.Faithful(store.schema)
    }

    constructor (source: Source, store: Store)
      ensures this.source == source && this.store == store
      ensures knownKeys == {} && quarantine == map[] && lastRevision == 0
    {
      this.source, this.store := source, store;
      knownKeys, quarantine, lastRevision := {}, map[], 0;
    }

    /** The client and the store as one state of a run. */
    ghost function View(synced: bool): Replica
      reads this, store
    {
      Replica(store.rows, knownKeys, quarantine, lastRevision, synced)
    }

    /**
     * Sends the candidates as one batch. If the store rejects some of them, sends the others once
     * more and asks it to keep the rejected rows.
     */
    method ApplyMutationBatch(candidates: seq<Candidate>, replaceManaged: bool, first: Delivery, second: Delivery)
      returns (result: BatchResult)
      requires Valid() && Sourced(source, candidates)
      modifies store
      ensures Valid()
      ensures !result.BadRejection?
      ensures result.BatchApplied? ==>
                && (forall i :: i in result.rejected ==> i < |candidates|)
                && Decoded(store.schema, candidates, result.rejected)
                && store.rows == Written(
                     if replaceManaged then store.schema.Cleared(old(store.rows), Resources(candidates, result.rejected))
                     else old(store.rows),
                     candidates, result.rejected)
      // without faults the batch is applied, at once or by the retry, exactly when what is left of it takes no key that stays another's
      ensures first == second == Delivered(false, false) ==>
                (result.BatchApplied? <==> Applicable(store.schema, old(store.rows), candidates, replaceManaged))
      ensures result.BatchApplied? ==> result.rejected == Refused(store.schema, old(store.rows), candidates, replaceManaged)
    {
      var options := BatchOptions(replaceManaged, {});
      ghost var refused := Refused(store.schema, store.rows, candidates, replaceManaged);
      if store.schema.Acceptable(store.rows, Mutations(candidates), options) {
        AcceptableIsFree(store.schema, store.rows, candidates, replaceManaged);
      }
      var sent := store.Submit(Mutations(candidates), options, first);
      if sent == Answer(Applied) {
        PrunedNothing(candidates);
        AcceptedDecoded(store.schema, candidates, {});
        CommittedIsWritten(store.schema, source, store.schema.Base(old(store.rows), options), candidates, {});
        assert Resources(candidates, {}) == {};
        return BatchApplied({});
      }
      if sent.ContextDone? || !sent.outcome.Invalid? {
        return BatchFailed;
      }
      var bad, rejected, preserve := CollectRejections(candidates, sent.outcome.rejected);
      RefusesUnaccepted(store.schema, store.rows, candidates, replaceManaged);
      assert forall i :: 0 <= i < |sent.outcome.rejected| ==> sent.outcome.rejected[i] in refused;
      if bad {
        return BadRejection;
      }
      assert rejected == refused;
      result := SendPruned(candidates, rejected, BatchOptions(replaceManaged, preserve), second);
    }

    /** The refused positions and resources; an index out of range or twice is an error. */
    static method CollectRejections(candidates: seq<Candidate>, rejections: seq<nat>)
      returns (bad: bool, rejected: set<nat>, preserve: set<ResourceKey>)
      ensures bad <==> (exists i :: 0 <= i < |rejections| && rejections[i] >= |candidates|)
                       || (exists i, j :: 0 <= i < j < |rejections| && rejections[i] == rejections[j])
      ensures !bad ==> (forall i :: i in rejected <==> i in rejections) && preserve == Resources(candidates, rejected)
    {
      bad, rejected, preserve := false, {}, {};
      for n := 0 to |rejections|
        invariant forall i :: i in rejected <==> i in rejections[..n]
        invariant forall i :: 0 <= i < n ==> rejections[i] < |candidates|
        invariant forall i, j :: 0 <= i < j < n ==> rejections[i] != rejections[j]
        invariant preserve == Resources(candidates, rejected)
      {
        var x := rejections[n];
        if x >= |candidates| {
          return true, rejected, preserve;
        }
        if x in rejected {
          ghost var i :| 0 <= i < n && rejections[..n][i] == x;
          return true, rejected, preserve;
        }
        assert rejections[..n + 1] == rejections[..n] + [x];
        rejected := rejected + {x};
        preserve := preserve + {candidates[x].resource};
      }
      assert rejections[..|rejections|] == rejections;
    }

    /** The one retry: the candidates that were not refused, the refused rows preserved. */
    method SendPruned(candidates: seq<Candidate>, rejected: set<nat>, options: BatchOptions, delivery: Delivery)
      returns (result: BatchResult)
      requires Valid() && Sourced(source, candidates)
      requires rejected == Refused(store.schema, store.rows, candidates, options.replaceManaged)
      requires options.preserve == Resources(candidates, rejected)
      modifies store
      ensures Valid() && !result.BadRejection?
      ensures result.BatchApplied? ==>
                && result.rejected == rejected && Decoded(store.schema, candidates, rejected)
                && store.rows == Written(
                     if options.replaceManaged then store.schema.Cleared(old(store.rows), Resources(candidates, rejected)) else old(store.rows),
                     candidates, rejected)
      ensures delivery == Delivered(false, false) && store.schema.Supported(Mutations(candidates)) ==>
                (result.BatchApplied? <==> Retry(store.schema, old(store.rows), candidates, options.replaceManaged).Free())
    {
      RefusesUnaccepted(store.schema, store.rows, candidates, options.replaceManaged);
      PrunedAccepted(store.schema, candidates, rejected);
      RetryIsAcceptable(store.schema, store.rows, candidates, options.replaceManaged);
      var retried := store.Submit(Mutations(Pruned(candidates, rejected)), options, delivery);
      if retried != Answer(Applied) {
        return BatchFailed;
      }
      AcceptedDecoded(store.schema, candidates, rejected);
      CommittedIsWritten(store.schema, source, store.schema.Base(old(store.rows), options), candidates, rejected);
      return BatchApplied(rejected);
    }

    /** The managed key-values of a snapshot, and their keys. */
    method CollectSnapshot(kvs: seq<KeyValue>, revision: int) returns (candidates: seq<Candidate>, keys: set<string>)
      ensures candidates == source.Candidates(Puts(kvs), revision)
      ensures keys == Known({}, candidates)
    {
      ghost var events := Puts(kvs);
      candidates, keys := [], {};
      for i := 0 to |kvs|
        invariant candidates == source.Candidates(events[..i], revision)
        invariant keys == Known({}, candidates)
      {
        assert events[..i + 1][..i] == events[..i];
        var kv := kvs[i];
        if source.managed(kv.key).Some? {
          var candidate := source.CandidateOf(WatchEvent(Put, kv), revision);
          assert (candidates + [candidate])[..|candidates|] == candidates;
          candidates := candidates + [candidate];
          keys := keys + {kv.key};
        }
      }
      assert events[..|kvs|] == events;
    }

    /** The managed events of a watch response, and the keys known after them. */
    method CollectEvents(known: set<string>, events: seq<WatchEvent>, revision: int)
      returns (candidates: seq<Candidate>, keys: set<string>)
      ensures candidates == source.Candidates(events, revision)
      ensures keys == Known(source.ManagedOnly(known), candidates)
    {
      candidates := [];
      keys := source.ManagedOnly(known);
      for i := 0 to |events|
        invariant candidates == source.Candidates(events[..i], revision)
        invariant keys == Known(source.ManagedOnly(known), candidates)
      {
        assert events[..i + 1][..i] == events[..i];
        var event := events[i];
        if source.managed(event.kv.key).Some? {
          var candidate := source.CandidateOf(event, revision);
          assert (candidates + [candidate])[..|candidates|] == candidates;
          candidates := candidates + [candidate];
          if event.kind.Delete? {
            keys := keys - {event.kv.key};
          } else {
            keys := keys + {event.kv.key};
          }
        }
      }
      assert events[..|events|] == events;
    }

    /** Drops the quarantine entries of keys that a snapshot shows to be gone. */
    static method ExpireQuarantine(before: map<string, int>, present: set<string>, revision: int)
      returns (after: map<string, int>)
      ensures after == Unexpired(before, present, revision)
    {
      after := before;
      var pending := before.Keys - present;
      assert Unexpired(before, present + pending, revision) == before;
      while pending != {}
        invariant pending <= before.Keys - present
        invariant after == Unexpired(before, present + pending, revision)
        decreases |pending|
      {
        var key :| key in pending;
        ExpireNext(before, present + pending, key, revision);
        assert present + pending - {key} == present + (pending - {key});
        pending := pending - {key};
        after := ClearQuarantine(after, key, revision);
      }
      assert present + {} == present;
    }

    static lemma ExpireNext(before: map<string, int>, kept: set<string>, key: string, revision: int)
      requires key in before && key in kept
      ensures ClearQuarantine(Unexpired(before, kept, revision), key, revision) == Unexpired(before, kept - {key}, revision)
    {
    }

    /** The newest revision a batch carries. */
    static method Newest(revision: int, candidates: seq<Candidate>) returns (newest: int)
      ensures newest == MaxRevision(revision, candidates)
    {
      newest := revision;
      for i := 0 to |candidates|
        invariant newest == MaxRevision(revision, candidates[..i])
      {
        assert candidates[..i + 1][..i] == candidates[..i];
        if candidates[i].revision > newest {
          newest := candidates[i].revision;
        }
      }
      assert candidates[..|candidates|] == candidates;
    }

    /**
     * Applies a full snapshot: the managed rows become those of the snapshot, except that rejected
     * resources keep their last good rows.
     */
    method ApplySnapshot(complete: bool, kvs: seq<KeyValue>, revision: int, first: Delivery, second: Delivery)
      returns (ok: bool, ghost rejected: set<nat>)
      requires Valid()
      modifies this, store
      ensures Valid()
      ensures ok ==> complete && Decoded(store.schema, source.Candidates(Puts(kvs), revision), rejected)
      ensures ok ==> rejected == Refused(store.schema, old(store.rows), source.Candidates(Puts(kvs), revision), true)
      ensures ok ==> forall synced :: View(true) == AfterSnapshot(store.schema, source, old(View(synced)), kvs, revision, rejected)
      ensures !ok ==> unchanged(this)
      ensures first == second == Delivered(false, false) ==>
                (ok <==> complete && Applicable(store.schema, old(store.rows), source.Candidates(Puts(kvs), revision), true))
    {
      rejected := {};
      if !complete {
        return false, {};
      }
      var candidates, nextKeys := CollectSnapshot(kvs, revision);
      CandidatesSourced(source, Puts(kvs), revision);
      var nextQuarantine := ExpireQuarantine(quarantine, nextKeys, revision);
      var result := ApplyMutationBatch(candidates, true, first, second);
      if !result.BatchApplied? {
        return false, {};
      }
      rejected := result.rejected;
      nextQuarantine := Judge(nextQuarantine, candidates, result.rejected);
      knownKeys := nextKeys;
      lastRevision := Max(revision, lastRevision);
      quarantine := nextQuarantine;
      ok := true;
    }

    /** Records the verdicts on a batch in the quarantine, in batch order. */
    static method Judge(before: map<string, int>, candidates: seq<Candidate>, rejected: set<nat>)
      returns (after: map<string, int>)
      ensures after == Judged(before, candidates, rejected)
    {
      after := before;
      for i := 0 to |candidates|
        invariant after == Judged(before, candidates[..i], rejected)
      {
        assert candidates[..i + 1][..i] == candidates[..i];
        var candidate := candidates[i];
        if i in rejected {
          after := RecordQuarantine(after, candidate.key, candidate.revision);
        } else {
          after := ClearQuarantine(after, candidate.key, candidate.revision);
        }
      }
      assert candidates[..|candidates|] == candidates;
    }

    /** Applies the events of one watch response in order. */
    method ApplyWatchResponse(complete: bool, events: seq<WatchEvent>, revision: int, first: Delivery, second: Delivery)
      returns (ok: bool, ghost rejected: set<nat>)
      requires Valid()
      modifies this, store
      ensures Valid()
      ensures ok ==> complete && Decoded(store.schema, source.Candidates(events, revision), rejected)
      ensures ok ==> rejected == Refused(store.schema, old(store.rows), source.Candidates(events, revision), false)
      ensures ok ==> forall synced :: View(true) == AfterWatch(source, old(View(synced)), events, revision, rejected)
      ensures !ok ==> unchanged(this)
      ensures first == second == Delivered(false, false) ==>
                (ok <==> complete && Applicable(store.schema, old(store.rows), source.Candidates(events, revision), false))
    {
      rejected := {};
      if !complete {
        return false, {};
      }
      var candidates, nextKeys := CollectEvents(knownKeys, events, revision);
      CandidatesSourced(source, events, revision);
      var result := ApplyMutationBatch(candidates, false, first, second);
      if !result.BatchApplied? {
        return false, {};
      }
      rejected := result.rejected;
      var nextQuarantine := Judge(quarantine, candidates, result.rejected);
      var nextRevision := Newest(Max(lastRevision, revision), candidates);
      knownKeys := nextKeys;
      lastRevision := nextRevision;
      quarantine := nextQuarantine;
      ok := true;
    }

    /** One response or trouble on the stream, or one attempt to recover. */
    method Meet(history: History, streaming: bool, input: Input) returns (streaming': bool, ghost step: Option<Step>)
      requires Valid() && Inv(source, history, View(streaming)) && Served(source, history, input)
      modifies this, store
      ensures Valid() && Inv(source, history, View(streaming'))
      ensures Taken(store.schema, source, history, old(View(streaming)), input, step, View(streaming'))
    {
      streaming', step := streaming, None;
      match input
      case Response(upto, complete, first, second) =>
        if streaming && lastRevision <= upto <= |history| {
          var events := Events(history, lastRevision, upto);
          ghost var before := View(true);
          ghost var rejected;
          streaming', rejected := ApplyWatchResponse(complete, events, upto, first, second);
          if streaming' {
            step := Some(WatchApplied(events, upto, rejected));
            WatchKeepsInv(store.schema, source, history, before, step.value);
          } else {
            step := Some(ApplyFailed(store.rows));
          }
        }
      case StreamBroken =>
        if streaming {
          streaming', step := false, Some(ApplyFailed(store.rows));
        }
      case IdleTimeout =>
      case Snapshot(complete, kvs, revision, first, second) =>
        if !streaming && lastRevision <= revision {
          ghost var before := View(false);
          ghost var rejected;
          streaming', rejected := ApplySnapshot(complete, kvs, revision, first, second);
          if streaming' {
            step := Some(SnapshotApplied(kvs, revision, rejected));
            SnapshotKeepsInv(store.schema, source, history, before, step.value);
          } else {
            step := Some(ApplyFailed(store.rows));
          }
        }
      case LoadFailed =>
    }

    /**
     * Follows etcd from a successful start: watch responses while the stream stands, and after any
     * failure snapshots until one is applied. Etcd serves watch responses from the revision asked
     * for; snapshots older than the applied revision do not occur. What the loop does is a run: one
     * state after each input, and a step wherever an input calls for one.
     */
    method Watch(history: History, inputs: seq<Input>)
      returns (streaming: bool, ghost steps: seq<Option<Step>>, ghost states: seq<Replica>)
      requires Valid() && Inv(source, history, View(true))
      requires forall i :: 0 <= i < |inputs| ==> Served(source, history, inputs[i])
      modifies this, store
      ensures Valid() && Watched(store.schema, source, history, inputs, steps, states)
      ensures states[0] == old(View(true)) && states[|inputs|] == View(streaming)
      ensures lastRevision == LastApplied(old(lastRevision), steps)
    {
      streaming, steps, states := true, [], [View(true)];
      for i := 0 to |inputs|
        invariant Valid() && Watched(store.schema, source, history, inputs[..i], steps, states)
        invariant states[0] == old(View(true)) && states[i] == View(streaming)
        invariant lastRevision == LastApplied(old(lastRevision), steps)
      {
        ghost var step;
        streaming, step := Meet(history, streaming, inputs[i]);
        WatchedMore(store.schema, source, history, inputs[..i], steps, states, inputs[i], step, View(streaming));
        assert inputs[..i + 1] == inputs[..i] + [inputs[i]];
        assert (steps + [step])[..i] == steps;
        steps, states := steps + [step], states + [View(streaming)];
      }
      assert inputs[..|inputs|] == inputs;
    }
  }

  /** What the watch loop meets: responses and trouble on the stream, snapshots and trouble while recovering. */
  datatype Input =
    | Response(upto: nat, complete: bool, first: Delivery, second: Delivery)
    | StreamBroken
    | IdleTimeout
    | Snapshot(complete: bool, kvs: seq<KeyValue>, revision: nat, first: Delivery, second: Delivery)
    | LoadFailed

  /** Etcd answers a load with its contents at a revision. */
  ghost predicate Served(source: Source, history: History, input: Input) {
    input.Snapshot? ==> input.revision <= |history| && SnapshotOf(source, input.kvs, At(history, input.revision))
  }

  /** An input that calls for a step: it meets the stream it is for, or breaks it, or ends a recovery. */
  ghost predicate IsDue(history: History, before: Replica, input: Input) {
    match input
    case Response(upto, _, _, _) => before.synced && 0 <= before.lastRevision <= upto <= |history|
    case StreamBroken => before.synced
    case Snapshot(_, _, revision, _, _) => !before.synced && before.lastRevision <= revision
    case _ => false
  }

  /** The step is an apply of the whole response or snapshot, or a failure that leaves the client as it was. */
  ghost predicate IsStepFor(history: History, before: Replica, input: Input, step: Step)
    requires IsDue(history, before, input)
  {
    match step
    case WatchApplied(events, revision, _) =>
      input.Response? && revision == input.upto && events == Events(history, before.lastRevision, input.upto)
    case SnapshotApplied(kvs, revision, _) => input.Snapshot? && revision == input.revision && kvs == input.kvs
    case ApplyFailed(_) => true
  }

  /**
   * What one input does. An input that is due is a step of the run; without faults the step is an
   * apply exactly if the input is complete and applicable, and it refuses exactly what the store
   * refuses. Any other input changes nothing.
   */
  ghost predicate Taken(schema: Schema, source: Source, history: History, before: Replica, input: Input, step: Option<Step>, after: Replica) {
    && (step.Some? <==> IsDue(history, before, input)) && Moves(schema, source, history, before, step, after)
    && (step.Some? ==>
          && IsStepFor(history, before, input, step.value)
          && (after.synced <==> !step.value.ApplyFailed?)
          && (!step.value.ApplyFailed? ==> after.lastRevision == step.value.revision)
          && Settles(schema, source, history, before, input, step.value))
  }

  ghost predicate Moves(schema: Schema, source: Source, history: History, before: Replica, step: Option<Step>, after: Replica) {
    match step
    case None => after == before
    case Some(taken) => Allowed(schema, source, history, before, taken) && after == Next(schema, source, before, taken)
  }

  ghost predicate Settles(schema: Schema, source: Source, history: History, before: Replica, input: Input, step: Step)
    requires IsDue(history, before, input)
  {
    match input
    case Response(upto, complete, first, second) =>
      var candidates := source.Candidates(Events(history, before.lastRevision, upto), upto);
      && (step.WatchApplied? ==> complete && step.rejected == Refused(schema, before.rows, candidates, false))
      && (first == second == Delivered(false, false) ==>
            (step.WatchApplied? <==> complete && Applicable(schema, before.rows, candidates, false)))
    case Snapshot(complete, kvs, revision, first, second) =>
      var candidates := source.Candidates(Puts(kvs), revision);
      && (step.SnapshotApplied? ==> complete && step.rejected == Refused(schema, before.rows, candidates, true))
      && (first == second == Delivered(false, false) ==>
            (step.SnapshotApplied? <==> complete && Applicable(schema, before.rows, candidates, true)))
    case _ => true
  }

  /** The revision of the last successful step, or the one before all. */
  ghost function LastApplied(start: int, steps: seq<Option<Step>>): int {
    if steps == [] then start
    else
      var last := steps[|steps| - 1];
      if last.Some? && !last.value.ApplyFailed? then last.value.revision else LastApplied(start, steps[..|steps| - 1])
  }

  /** One state after each input, each by what its input does, all within the mirror's invariant. */
  ghost predicate Watched(schema: Schema, source: Source, history: History, inputs: seq<Input>, steps: seq<Option<Step>>, states: seq<Replica>) {
    && |steps| == |inputs| && |states| == |inputs| + 1
    && (forall i :: 0 <= i < |inputs| ==> Taken(schema, source, history, states[i], inputs[i], steps[i], states[i + 1]))
    && (forall i :: 0 <= i <= |inputs| ==> Inv(source, history, states[i]))
  }

  lemma WatchedMore(schema: Schema, source: Source, history: History, inputs: seq<Input>, steps: seq<Option<Step>>, states: seq<Replica>,
                    input: Input, step: Option<Step>, after: Replica)
    requires Watched(schema, source, history, inputs, steps, states) && Inv(source, history, after)
    requires Taken(schema, source, history, states[|inputs|], input, step, after)
    ensures Watched(schema, source, history, inputs + [input], steps + [step], states + [after])
  {
  }

  lemma RunExtends(schema: Schema, source: Source, history: History, run: seq<Step>, all: seq<Replica>, step: Option<Step>, after: Replica)
    returns (longer: seq<Replica>)
    requires IsRun(schema, source, history, run, all) && Moves(schema, source, history, all[|run|], step, after)
    ensures IsRun(schema, source, history, run + Taking(step), longer) && longer[|longer| - 1] == after
  {
    if step.None? {
      longer := all;
      assert run + Taking(step) == run;
    } else {
      longer := all + [after];
      RunAppends(schema, source, history, run, all, step.value);
    }
  }

  lemma RunAppends(schema: Schema, source: Source, history: History, run: seq<Step>, all: seq<Replica>, step: Step)
    requires IsRun(schema, source, history, run, all) && Allowed(schema, source, history, all[|run|], step)
    ensures IsRun(schema, source, history, run + [step], all + [Next(schema, source, all[|run|], step)])
  {
    var steps, states := run + [step], all + [Next(schema, source, all[|run|], step)];
    forall i | 0 <= i < |steps|
      ensures Allowed(schema, source, history, states[i], steps[i]) && states[i + 1] == Next(schema, source, states[i], steps[i])
    {
      if i < |run| {
        assert states[i] == all[i] && states[i + 1] == all[i + 1] && steps[i] == run[i];
      }
    }
  }

  ghost function Taking(step: Option<Step>): seq<Step> {
    if step.Some? then [step.value] else []
  }

  /** The steps that were taken, in order. */
  ghost function Compact(steps: seq<Option<Step>>): seq<Step> {
    if steps == [] then [] else Compact(steps[..|steps| - 1]) + Taking(steps[|steps| - 1])
  }

  /** A watch prolongs the run that led to it, so whatever holds of runs holds of watching. */
  lemma {:induction false} WatchProlongsRun(schema: Schema, source: Source, history: History, past: seq<Step>, before: seq<Replica>,
                                            steps: seq<Option<Step>>, states: seq<Replica>, n: nat) returns (run: seq<Step>, all: seq<Replica>)
    requires IsRun(schema, source, history, past, before) && |states| == |steps| + 1 && states[0] == before[|past|] && n <= |steps|
    requires forall i :: 0 <= i < |steps| ==> Moves(schema, source, history, states[i], steps[i], states[i + 1])
    ensures IsRun(schema, source, history, run, all) && all[|all| - 1] == states[n]
    ensures run == past + Compact(steps[..n])
  {
    if n == 0 {
      run, all := past, before;
    } else {
      var m := n - 1;
      run, all := WatchProlongsRun(schema, source, history, past, before, steps, states, m);
      assert Moves(schema, source, history, states[m], steps[m], states[m + 1]);
      all := RunExtends(schema, source, history, run, all, steps[m], states[m + 1]);
      assert steps[..n][..m] == steps[..m];
      run := run + Taking(steps[m]);
    }
  }

  // ----- the gateway's own source -----

  /** The source a codec and an etcd prefix give. */
  function EtcdSource(codec: Codec, prefix: string): Source {
    Source((key: string) => codec.ManagedKey(prefix, key),
           (key: string) => var managed := codec.ManagedKey(prefix, key);
                            if managed.Some? then codec.StoreMutationKey(key, managed.value) else key,
           codec.PluginsKey(),
           codec.PluginsAlias(prefix))
  }

  lemma ManagedBucket(codec: Codec, prefix: string, key: string)
    requires codec.Valid() && codec.ManagedKey(prefix, key).Some?
    ensures codec.ManagedKey(prefix, key).value.bucket in codec.buckets
  {
  }

  /** The gateway's keys meet every assumption the mirror makes, under any prefix that does not end in the secrets bucket. */
  lemma EtcdSourceIsFaithful(codec: Codec, prefix: string, schema: Schema)
    requires codec.Valid() && LastSegment(prefix) != codec.secrets
    requires schema.buckets == codec.buckets && forall key :: schema.decode(key) == codec.ParseMutationKey(key)
    ensures EtcdSource(codec, prefix).Faithful(schema)
  {
    var source := EtcdSource(codec, prefix);
    forall key | source.managed(key).Some?
      ensures source.managed(key).value.bucket in schema.buckets
      ensures schema.decode(source.mutationKey(key)).Some? ==> schema.decode(source.mutationKey(key)) == source.managed(key)
    {
      codec.DecodersAgree(prefix, key);
      ManagedBucket(codec, prefix, key);
    }
    forall a, b | source.managed(a).Some? && source.managed(a) == source.managed(b) && a != b
      ensures source.managed(a).value == source.pluginList && (a == source.alias || b == source.alias)
    {
      codec.OnlyPluginsAlias(prefix, a, b);
    }
  }

  /** The two spellings of the plugin list under a prefix, which name one resource. */
  lemma PluginListSpellings(codec: Codec, prefix: string)
    requires codec.Valid()
    ensures var source := EtcdSource(codec, prefix);
      && source.managed(EffectivePrefix(prefix) + codec.plugins) == source.managed(source.alias) == Some(source.pluginList)
      && EffectivePrefix(prefix) + codec.plugins != source.alias
  {
    var p := EffectivePrefix(prefix);
    SplitSlashFree(codec.plugins);
    SplitPair(codec.plugins, codec.plugins);
    assert (p + codec.plugins)[|p|..] == codec.plugins;
    assert (p + (codec.plugins + "/" + codec.plugins))[|p|..] == codec.plugins + "/" + codec.plugins;
    assert |p + codec.plugins| != |p + (codec.plugins + "/" + codec.plugins)|;
  }

  // ----- when the single retry is not enough -----

  /** No two candidates name one consumer, as in a snapshot, and in a watch response unless a consumer changed twice. */
  ghost predicate NamedOnce(schema: Schema, candidates: seq<Candidate>) {
    forall i, j :: 0 <= i < j < |candidates| && schema.IsConsumer(candidates[i].resource) ==> candidates[i].resource != candidates[j].resource
  }

  /** A candidate that was not refused asks for a lookup key in the stored row of a consumer that was. */
  ghost predicate Blocks(schema: Schema, rows: Rows, candidates: seq<Candidate>, refused: set<nat>, i: nat, j: nat, key: string)
    requires i < |candidates| && j < |candidates|
  {
    && i !in refused && j in refused && schema.IsConsumer(candidates[j].resource)
    && schema.CredentialsOf(candidates[i].mutation).Some? && key in schema.CredentialsOf(candidates[i].mutation).value
    && candidates[j].resource.id in schema.Table(rows) && key in schema.Table(rows)[candidates[j].resource.id]
  }

  /** The parsed entry that a candidate becomes, and its candidate. */
  lemma EntryOfCandidate(schema: Schema, source: Source, candidates: seq<Candidate>, i: nat) returns (n: nat)
    requires source.Faithful(schema) && Sourced(source, candidates) && i < |candidates| && schema.decode(candidates[i].mutation.key).Some?
    ensures var parsed := schema.Parse(Mutations(candidates));
      n < |parsed| && parsed[n] == ParsedMutation(candidates[i].mutation, candidates[i].resource, i)
  {
    var entry := ParsedMutation(candidates[i].mutation, candidates[i].resource, i);
    schema.ParsedEntry(Mutations(candidates), entry);
    n :| 0 <= n < |schema.Parse(Mutations(candidates))| && schema.Parse(Mutations(candidates))[n] == entry;
  }

  lemma CandidateOfEntry(schema: Schema, source: Source, candidates: seq<Candidate>, entry: ParsedMutation)
    requires source.Faithful(schema) && Sourced(source, candidates) && entry in schema.Parse(Mutations(candidates))
    ensures entry.index < |candidates| && entry == ParsedMutation(candidates[entry.index].mutation, candidates[entry.index].resource, entry.index)
  {
    schema.ParsedEntry(Mutations(candidates), entry);
  }

  lemma PrunedSourced(source: Source, candidates: seq<Candidate>, rejected: set<nat>)
    requires Sourced(source, candidates)
    ensures Sourced(source, Pruned(candidates, rejected))
  {
    var pruned := Pruned(candidates, rejected);
    forall j | 0 <= j < |pruned|
      ensures source.managed(pruned[j].key) == Some(pruned[j].resource) && pruned[j].mutation.key == source.mutationKey(pruned[j].key)
    {
      var i := PrunedMember(candidates, rejected, j);
    }
  }

  /** With each consumer named once, a consumer PUT decides. */
  lemma OnceDecides(schema: Schema, source: Source, rows: Rows, candidates: seq<Candidate>, options: BatchOptions, n: nat)
    requires source.Faithful(schema) && Sourced(source, candidates) && NamedOnce(schema, candidates)
    requires n < |schema.Parse(Mutations(candidates))| && schema.CredentialsOf(schema.Parse(Mutations(candidates))[n].mutation).Some?
    ensures var batch := schema.BatchOf(rows, Mutations(candidates), options);
      batch.Decides(batch.parsed[n]) && batch.credentials[batch.parsed[n].index] == schema.CredentialsOf(batch.parsed[n].mutation).value
  {
    var batch := schema.BatchOf(rows, Mutations(candidates), options);
    var entry := batch.parsed[n];
    LastMutationsMembers(batch.parsed);
    schema.EntryCredentials(Mutations(candidates), entry);
    var last := batch.last[entry.key];
    CandidateOfEntry(schema, source, candidates, entry);
    CandidateOfEntry(schema, source, candidates, last);
  }

  /** The entry of a candidate with credentials decides its row. */
  lemma DecidingEntry(schema: Schema, source: Source, rows: Rows, candidates: seq<Candidate>, options: BatchOptions, i: nat)
    returns (n: nat)
    requires source.Faithful(schema) && Sourced(source, candidates) && NamedOnce(schema, candidates) && i < |candidates|
    requires schema.CredentialsOf(candidates[i].mutation).Some?
    ensures var batch := schema.BatchOf(rows, Mutations(candidates), options);
      && n < |batch.parsed| && batch.parsed[n].key == candidates[i].resource && batch.parsed[n].index == i && batch.Decides(batch.parsed[n])
      && batch.credentials[i] == schema.CredentialsOf(candidates[i].mutation).value
  {
    n := EntryOfCandidate(schema, source, candidates, i);
    OnceDecides(schema, source, rows, candidates, options, n);
  }

  /** A candidate left for the retry gives its consumer its keys there. */
  lemma LeftGives(schema: Schema, source: Source, rows: Rows, candidates: seq<Candidate>, refused: set<nat>, options: BatchOptions, i: nat, key: string)
    requires source.Faithful(schema) && Sourced(source, candidates) && NamedOnce(schema, candidates) && i < |candidates| && i !in refused
    requires schema.CredentialsOf(candidates[i].mutation).Some? && key in schema.CredentialsOf(candidates[i].mutation).value
    ensures schema.BatchOf(rows, Mutations(Pruned(candidates, refused)), options).Gives(candidates[i].resource.id, key)
  {
    var pruned := Pruned(candidates, refused);
    PrunedSourced(source, candidates, refused);
    PrunedOnce(schema, candidates, refused);
    var j := PrunedKeeps(candidates, refused, i);
    var n := DecidingEntry(schema, source, rows, pruned, options, j);
  }

  lemma {:induction false} PrunedOnce(schema: Schema, candidates: seq<Candidate>, refused: set<nat>)
    requires NamedOnce(schema, candidates)
    ensures NamedOnce(schema, Pruned(candidates, refused))
  {
    if candidates != [] {
      var n := |candidates| - 1;
      var front := Pruned(candidates[..n], refused);
      PrunedOnce(schema, candidates[..n], refused);
      forall j | 0 <= j < |front|
        ensures schema.IsConsumer(front[j].resource) ==> front[j].resource != candidates[n].resource
      {
        var i := PrunedMember(candidates[..n], refused, j);
      }
    }
  }

  /** What the retry gives comes from a candidate that was not refused. */
  lemma GivenIsLeft(schema: Schema, source: Source, rows: Rows, candidates: seq<Candidate>, refused: set<nat>, options: BatchOptions, id: string, key: string)
    returns (i: nat)
    requires source.Faithful(schema) && Sourced(source, candidates)
    requires schema.BatchOf(rows, Mutations(Pruned(candidates, refused)), options).Gives(id, key)
    ensures i < |candidates| && i !in refused && candidates[i].resource == schema.ConsumerKey(id)
    ensures schema.CredentialsOf(candidates[i].mutation).Some? && key in schema.CredentialsOf(candidates[i].mutation).value
  {
    var pruned := Pruned(candidates, refused);
    var batch := schema.BatchOf(rows, Mutations(pruned), options);
    PrunedSourced(source, candidates, refused);
    LastMutationsMembers(batch.parsed);
    var entry := batch.last[batch.RowOf(id)];
    schema.EntryCredentials(Mutations(pruned), entry);
    CandidateOfEntry(schema, source, pruned, entry);
    i := PrunedMember(candidates, refused, entry.index);
  }

  /** A resource that the retry names is one of a candidate that was not refused. */
  lemma NamedIsLeft(schema: Schema, source: Source, candidates: seq<Candidate>, refused: set<nat>, resource: ResourceKey) returns (i: nat)
    requires source.Faithful(schema) && Sourced(source, candidates)
    requires resource in LastMutations(schema.Parse(Mutations(Pruned(candidates, refused))))
    ensures i < |candidates| && i !in refused && candidates[i].resource == resource
  {
    var pruned := Pruned(candidates, refused);
    PrunedSourced(source, candidates, refused);
    var parsed := schema.Parse(Mutations(pruned));
    LastMutationsMembers(parsed);
    CandidateOfEntry(schema, source, pruned, LastMutations(parsed)[resource]);
    i := PrunedMember(candidates, refused, LastMutations(parsed)[resource].index);
  }

  /** A refused consumer's stored keys stay in the retry, so whoever asks for one of them blocks it. */
  lemma BlockedIsNotFree(schema: Schema, source: Source, rows: Rows, candidates: seq<Candidate>, replaceManaged: bool, i: nat, j: nat, key: string)
    requires source.Faithful(schema) && Sourced(source, candidates) && NamedOnce(schema, candidates) && i < |candidates| && j < |candidates|
    requires Blocks(schema, rows, candidates, Refused(schema, rows, candidates, replaceManaged), i, j, key)
    ensures !Retry(schema, rows, candidates, replaceManaged).Free()
  {
    var refused := Refused(schema, rows, candidates, replaceManaged);
    var retry := Retry(schema, rows, candidates, replaceManaged);
    LeftGives(schema, source, rows, candidates, refused, retry.options, i, key);
    RefusedStays(schema, source, rows, candidates, replaceManaged, j, key);
    assert candidates[i].resource != candidates[j].resource;
    assert candidates[i].resource.bucket == candidates[j].resource.bucket;
    assert candidates[i].resource.id != candidates[j].resource.id;
  }

  /** The retry leaves the stored row of a refused consumer where it is. */
  lemma RefusedStays(schema: Schema, source: Source, rows: Rows, candidates: seq<Candidate>, replaceManaged: bool, j: nat, key: string)
    requires source.Faithful(schema) && Sourced(source, candidates) && NamedOnce(schema, candidates) && j < |candidates|
    requires j in Refused(schema, rows, candidates, replaceManaged) && schema.IsConsumer(candidates[j].resource)
    requires candidates[j].resource.id in schema.Table(rows) && key in schema.Table(rows)[candidates[j].resource.id]
    ensures Retry(schema, rows, candidates, replaceManaged).Stays(candidates[j].resource.id, key)
  {
    var refused := Refused(schema, rows, candidates, replaceManaged);
    var retry := Retry(schema, rows, candidates, replaceManaged);
    if candidates[j].resource in retry.last {
      var k := NamedIsLeft(schema, source, candidates, refused, candidates[j].resource);
    }
  }

  /** The two candidates of a key that the retry would give twice: the first validation refused one of them. */
  lemma NeverGivenTwice(schema: Schema, source: Source, rows: Rows, candidates: seq<Candidate>, options: BatchOptions, i: nat, k: nat, key: string)
    requires source.Faithful(schema) && Sourced(source, candidates) && NamedOnce(schema, candidates) && i < |candidates| && k < |candidates|
    requires schema.Sound() && NamedRows(rows) && OneOwner(schema.Table(rows)) && candidates[i].resource.id != candidates[k].resource.id
    requires schema.CredentialsOf(candidates[i].mutation).Some? && key in schema.CredentialsOf(candidates[i].mutation).value
    requires schema.CredentialsOf(candidates[k].mutation).Some? && key in schema.CredentialsOf(candidates[k].mutation).value
    ensures i in schema.RefusedBy(rows, Mutations(candidates), options) || k in schema.RefusedBy(rows, Mutations(candidates), options)
  {
    var batch := schema.BatchOf(rows, Mutations(candidates), options);
    schema.BatchIsWellFormed(rows, Mutations(candidates), options);
    var n := DecidingEntry(schema, source, rows, candidates, options, i);
    var m := DecidingEntry(schema, source, rows, candidates, options, k);
    if m < n { batch.EarlierWins(m, n, key); } else { batch.EarlierWins(n, m, key); }
  }

  /** A candidate that asks for a key of a consumer whom the batch leaves alone was refused. */
  lemma KeptIsRespected(schema: Schema, source: Source, rows: Rows, candidates: seq<Candidate>, options: BatchOptions, i: nat, other: string, key: string)
    requires source.Faithful(schema) && Sourced(source, candidates) && NamedOnce(schema, candidates) && i < |candidates|
    requires schema.Sound() && NamedRows(rows) && OneOwner(schema.Table(rows)) && candidates[i].resource.id != other
    requires schema.CredentialsOf(candidates[i].mutation).Some? && key in schema.CredentialsOf(candidates[i].mutation).value
    requires schema.BatchOf(rows, Mutations(candidates), options).Keeps(other, key)
    ensures i in schema.RefusedBy(rows, Mutations(candidates), options)
  {
    var batch := schema.BatchOf(rows, Mutations(candidates), options);
    schema.BatchIsWellFormed(rows, Mutations(candidates), options);
    var n := DecidingEntry(schema, source, rows, candidates, options, i);
    batch.KeeperWins(n, other, key);
  }

  /** Without a block nothing that stays is asked for: the first validation has seen to all other collisions. */
  lemma UnblockedIsFree(schema: Schema, source: Source, rows: Rows, candidates: seq<Candidate>, replaceManaged: bool, id: string, other: string, key: string)
    requires source.Faithful(schema) && Sourced(source, candidates) && NamedOnce(schema, candidates)
    requires schema.Sound() && NamedRows(rows) && OneOwner(schema.Table(rows))
    requires Retry(schema, rows, candidates, replaceManaged).Gives(id, key) && other != id
    requires Retry(schema, rows, candidates, replaceManaged).Stays(other, key) || Retry(schema, rows, candidates, replaceManaged).Gives(other, key)
    ensures exists i, j :: 0 <= i < |candidates| && 0 <= j < |candidates|
              && Blocks(schema, rows, candidates, Refused(schema, rows, candidates, replaceManaged), i, j, key)
  {
    var refused := Refused(schema, rows, candidates, replaceManaged);
    var retry := Retry(schema, rows, candidates, replaceManaged);
    var options := BatchOptions(replaceManaged, {});
    var i := GivenIsLeft(schema, source, rows, candidates, refused, retry.options, id, key);
    if retry.Gives(other, key) {
      var k := GivenIsLeft(schema, source, rows, candidates, refused, retry.options, other, key);
      NeverGivenTwice(schema, source, rows, candidates, options, i, k, key);
    } else if j :| 0 <= j < |candidates| && j in refused && candidates[j].resource == schema.ConsumerKey(other) {
      assert Blocks(schema, rows, candidates, refused, i, j, key);
    } else {
      NamedStaysNamed(schema, source, candidates, refused, schema.ConsumerKey(other));
      KeptIsRespected(schema, source, rows, candidates, options, i, other, key);
    }
  }

  lemma NamedStaysNamed(schema: Schema, source: Source, candidates: seq<Candidate>, refused: set<nat>, resource: ResourceKey)
    requires source.Faithful(schema) && Sourced(source, candidates)
    requires forall j :: 0 <= j < |candidates| && j in refused ==> candidates[j].resource != resource
    ensures resource in LastMutations(schema.Parse(Mutations(candidates))) ==>
            resource in LastMutations(schema.Parse(Mutations(Pruned(candidates, refused))))
  {
    var parsed := schema.Parse(Mutations(candidates));
    LastMutationsMembers(parsed);
    if resource in LastMutations(parsed) {
      var entry := LastMutations(parsed)[resource];
      CandidateOfEntry(schema, source, candidates, entry);
      schema.ParsedEntry(Mutations(candidates), entry);
      var pruned := Pruned(candidates, refused);
      PrunedSourced(source, candidates, refused);
      var j := PrunedKeeps(candidates, refused, entry.index);
      var n := EntryOfCandidate(schema, source, pruned, j);
      LastMutationsMembers(schema.Parse(Mutations(pruned)));
    }
  }

  /**
   * When one retry is enough. If no two candidates name one consumer, the retry is accepted exactly
   * when no candidate left in it asks for a lookup key in the stored row of a refused consumer:
   * that row stays, while the first validation took it as replaced.
   */
  lemma RetrySucceedsExactly(schema: Schema, source: Source, rows: Rows, candidates: seq<Candidate>, replaceManaged: bool)
    requires source.Faithful(schema) && Sourced(source, candidates) && NamedOnce(schema, candidates)
    requires schema.Sound() && NamedRows(rows) && OneOwner(schema.Table(rows))
    ensures Retry(schema, rows, candidates, replaceManaged).Free() <==>
            forall i, j, key :: 0 <= i < |candidates| && 0 <= j < |candidates| ==>
              !Blocks(schema, rows, candidates, Refused(schema, rows, candidates, replaceManaged), i, j, key)
  {
    var refused := Refused(schema, rows, candidates, replaceManaged);
    var retry := Retry(schema, rows, candidates, replaceManaged);
    if i, j, key :| 0 <= i < |candidates| && 0 <= j < |candidates| && Blocks(schema, rows, candidates, refused, i, j, key) {
      BlockedIsNotFree(schema, source, rows, candidates, replaceManaged, i, j, key);
    } else {
      forall id, other, key | retry.Gives(id, key) && other != id
        ensures !retry.Stays(other, key) && !retry.Gives(other, key)
      {
        if retry.Stays(other, key) || retry.Gives(other, key) {
          UnblockedIsFree(schema, source, rows, candidates, replaceManaged, id, other, key);
        }
      }
      assert retry.Free();
    }
  }

  /**
   * One retry is not always enough. Consumer `a` owns lookup key `x` and consumer `b` owns `y`; a
   * batch moves `b` to `x` and hands `y` to `c`. The store refuses exactly the move of `b`, so `b`
   * keeps `y`, and the batch without it is refused as well: the whole apply fails.
   */
  lemma RetryCanBeRejected(schema: Schema, source: Source, rows: Rows, a: string, x: string, y: string, moveB: Candidate, addC: Candidate)
    requires source.Faithful(schema) && Sourced(source, [moveB, addC]) && schema.Sound() && NamedRows(rows)
    requires moveB.mutation.kind.Put? && moveB.resource.bucket == schema.consumers && schema.decode(moveB.mutation.key).Some?
    requires addC.mutation.kind.Put? && addC.resource.bucket == schema.consumers && schema.decode(addC.mutation.key).Some?
    requires a != moveB.resource.id && a != addC.resource.id && moveB.resource.id != addC.resource.id && x != y
    requires schema.Table(rows) == map[a := [x], moveB.resource.id := [y]]
    requires schema.lookupKeys(moveB.resource.id, moveB.mutation.value) == Some([x])
    requires schema.lookupKeys(addC.resource.id, addC.mutation.value) == Some([y])
    ensures Refused(schema, rows, [moveB, addC], false) == {0}
    ensures !Retry(schema, rows, [moveB, addC], false).Free()
  {
    var candidates := [moveB, addC];
    var options := BatchOptions(false, {});
    var table := schema.Table(rows);
    var b, c := moveB.resource.id, addC.resource.id;
    assert table[a] == [x] && table[b] == [y];
    assert OneOwner(table);
    MoveIsRefused(schema, source, rows, a, x, y, moveB, addC, options);
    assert Blocks(schema, rows, candidates, Refused(schema, rows, candidates, false), 1, 0, y);
    BlockedIsNotFree(schema, source, rows, candidates, false, 1, 0, y);
  }

  /** The verdict on the two: the move collides with `a`, the addition with nobody, `b` giving `y` up. */
  lemma MoveIsRefused(schema: Schema, source: Source, rows: Rows, a: string, x: string, y: string, moveB: Candidate, addC: Candidate, options: BatchOptions)
    requires source.Faithful(schema) && Sourced(source, [moveB, addC]) && schema.Sound() && NamedRows(rows) && !options.replaceManaged
    requires moveB.mutation.kind.Put? && moveB.resource.bucket == schema.consumers && schema.decode(moveB.mutation.key).Some?
    requires addC.mutation.kind.Put? && addC.resource.bucket == schema.consumers && schema.decode(addC.mutation.key).Some?
    requires a != moveB.resource.id && a != addC.resource.id && moveB.resource.id != addC.resource.id && x != y
    requires schema.Table(rows) == map[a := [x], moveB.resource.id := [y]]
    requires schema.lookupKeys(moveB.resource.id, moveB.mutation.value) == Some([x])
    requires schema.lookupKeys(addC.resource.id, addC.mutation.value) == Some([y])
    ensures schema.RefusedBy(rows, Mutations([moveB, addC]), options) == {0}
  {
    var m, n := moveB.mutation, addC.mutation;
    assert Mutations([moveB, addC]) == [m, n];
    assert schema.decode(m.key) == Some([moveB, addC][0].resource) && schema.decode(n.key) == Some([moveB, addC][1].resource);
    BatchOfTwo(schema, rows, m, n, options);
    var batch := schema.BatchOf(rows, [m, n], options);
    FirstOfTwoCollides(batch, a, x, y);
    assert schema.Accepts(m) && schema.Accepts(n);
    assert batch.parsed == schema.Parse([m, n]);
    assert forall i :: i in schema.RefusedBy(rows, [m, n], options) <==> i in batch.Colliding(2);
  }

  /** A batch of two consumer PUTs, spelled out. */
  lemma BatchOfTwo(schema: Schema, rows: Rows, m: Mutation, n: Mutation, options: BatchOptions)
    requires schema.CredentialsOf(m).Some? && schema.CredentialsOf(n).Some? && schema.decode(m.key) != schema.decode(n.key)
    ensures var batch := schema.BatchOf(rows, [m, n], options);
      && batch.parsed == [ParsedMutation(m, schema.decode(m.key).value, 0), ParsedMutation(n, schema.decode(n.key).value, 1)]
      && batch.last == map[batch.parsed[0].key := batch.parsed[0], batch.parsed[1].key := batch.parsed[1]]
      && 0 in batch.credentials && batch.credentials[0] == schema.CredentialsOf(m).value
      && 1 in batch.credentials && batch.credentials[1] == schema.CredentialsOf(n).value
      && batch.Decides(batch.parsed[0]) && batch.Decides(batch.parsed[1])
  {
    ParsedTwo(schema, m, n);
    TwoEntries(schema.Parse([m, n]));
  }

  /** Two PUTs: the first wants the key that `a` keeps, the second the one that the first gives up. */
  lemma FirstOfTwoCollides(batch: Batch, a: string, x: string, y: string)
    requires |batch.parsed| == 2 && !batch.options.replaceManaged && x != y
    requires batch.parsed[0].index == 0 && batch.parsed[1].index == 1 && batch.Decides(batch.parsed[0]) && batch.Decides(batch.parsed[1])
    requires batch.last == map[batch.parsed[0].key := batch.parsed[0], batch.parsed[1].key := batch.parsed[1]]
    requires batch.credentials[0] == [x] && batch.credentials[1] == [y]
    requires a != batch.parsed[0].key.id && a != batch.parsed[1].key.id
    requires batch.table == map[a := [x], batch.parsed[0].key.id := [y]]
    ensures batch.Colliding(2) == {0}
  {
    assert batch.Keeps(a, x);
    assert batch.Claimant(0, {}, a, x);
    assert x in batch.credentials[0];
    assert batch.Collides(0, batch.Colliding(0), batch.parsed[0]);
    assert batch.Colliding(1) == {0};
    forall key, other | key in batch.credentials[1] && other != batch.parsed[1].key.id
      ensures !batch.Claimant(1, {0}, other, key)
    {
      assert key == y;
    }
    assert !batch.Collides(1, {0}, batch.parsed[1]);
  }

  lemma ParsedTwo(schema: Schema, m: Mutation, n: Mutation)
    requires schema.decode(m.key).Some? && schema.decode(n.key).Some?
    ensures schema.Parse([m, n]) == [ParsedMutation(m, schema.decode(m.key).value, 0), ParsedMutation(n, schema.decode(n.key).value, 1)]
  {
    schema.ParseNext([m, n], 0);
    schema.ParseNext([m, n], 1);
    assert [m, n][..2] == [m, n] && [m, n][..0] == [];
  }

  lemma TwoEntries(parsed: seq<ParsedMutation>)
    requires |parsed| == 2
    ensures LastMutations(parsed) == map[parsed[0].key := parsed[0]][parsed[1].key := parsed[1]]
  {
    assert parsed[..1][..0] == [];
    assert LastMutations(parsed[..1]) == map[parsed[0].key := parsed[0]];
  }
}
