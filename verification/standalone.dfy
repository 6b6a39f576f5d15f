/**
 * File-driven configuration: one reload offers the whole file to the store as an authoritative
 * replacement, and keeps withdrawing what the store rejects until it accepts the rest.
 */
module Standalone {
  import opened Basics
  import opened Keys
  import opened ConfigStore

  /** Keeps the last good row of a resource in the next snapshot, or its absence. */
  function RetainLastGood(next: Rows, previous: Rows, key: ResourceKey): Rows {
    if key.id == "" then next
    else if key in previous then next[key := previous[key]]
    else next - {key}
  }

  /** The snapshot a reload settles on: the file's resources, the quarantined ones at their last good row. */
  function Settled(file: Rows, previous: Rows, quarantined: set<ResourceKey>): Rows {
    map key | key in file.Keys + previous.Keys && (if key in quarantined then key in previous else key in file)
      :: if key in quarantined then previous[key] else file[key]
  }

  lemma RetainSettles(file: Rows, previous: Rows, quarantined: set<ResourceKey>, key: ResourceKey)
    requires NamedRows(file) && NamedRows(previous)
    ensures RetainLastGood(Settled(file, previous, quarantined), previous, key)
         == Settled(file, previous, quarantined + {key})
  {
  }

  lemma SettledNothing(file: Rows, previous: Rows)
    ensures Settled(file, previous, {}) == file
  {
  }

  datatype ReloadResult =
    | Reloaded(quarantined: set<ResourceKey>)
    | ReadFailed
    | Stopped
    | ApplyFailed
    | BadIndex
    | NoProgress

  /** The batch for a snapshot: one PUT for each resource that is not preserved. */
  ghost predicate IsBatchFor(codec: Codec, next: Rows, preserve: set<ResourceKey>,
                             mutations: seq<Mutation>, keys: seq<ResourceKey>) {
    && |mutations| == |keys|
    && (forall key :: key in keys <==> key in next && key !in preserve)
    && (forall i, j :: 0 <= i < j < |keys| ==> keys[i] != keys[j])
    && (forall i :: 0 <= i < |keys| ==> keys[i] in next && mutations[i] == Mutation(Put, codec.StandaloneKey(keys[i]), next[keys[i]]))
  }

  /** A resource whose standalone key the store decodes back to it. */
  predicate RoundTrips(schema: Schema, codec: Codec, key: ResourceKey) {
    schema.decode(codec.StandaloneKey(key)) == Some(key)
  }

  /** Whatever the store decodes in a bucket of the file round-trips. */
  ghost predicate Coherent(schema: Schema, codec: Codec) {
    && codec.buckets == schema.buckets
    && forall key :: schema.decode(key).Some? && schema.decode(key).value.bucket in FileBuckets(codec) ==>
         RoundTrips(schema, codec, schema.decode(key).value)
  }

  /** The buckets a standalone file may hold: all managed ones but the dynamic plugin list. */
  function FileBuckets(codec: Codec): set<string> {
    codec.buckets - {codec.plugins}
  }

  /** The store's rows in the buckets of the file. */
  function FileRows(codec: Codec, rows: Rows): Rows {
    map key | key in rows && key.bucket in FileBuckets(codec) :: rows[key]
  }

  ghost predicate InFileBuckets(codec: Codec, rows: Rows) {
    NamedRows(rows) && forall key :: key in rows ==> key.bucket in FileBuckets(codec)
  }

  /** The gateway's codec is coherent. */
  lemma CodecIsCoherent(schema: Schema, codec: Codec)
    requires codec.Valid() && codec.buckets == schema.buckets
    requires forall key :: schema.decode(key) == codec.ParseMutationKey(key)
    ensures Coherent(schema, codec)
  {
    forall key | schema.decode(key).Some? && schema.decode(key).value.bucket in FileBuckets(codec)
      ensures RoundTrips(schema, codec, schema.decode(key).value)
    {
      codec.ParsedIsStorable(key);
      codec.StandaloneRoundTrip(schema.decode(key).value);
    }
  }

  /** And sound, so the store keeps a named row for each resource under any codec of this kind. */
  lemma CodecIsSound(schema: Schema, codec: Codec)
    requires codec.Valid() && codec.buckets == schema.buckets && schema.consumers in schema.buckets
    requires forall key :: schema.decode(key) == codec.ParseMutationKey(key)
    ensures schema.Sound()
  {
    forall key | schema.decode(key).Some?
      ensures schema.decode(key).value.id != ""
    {
      codec.ParsedIsStorable(key);
    }
  }

  /**
   * What an accepted reload leaves in the store. It is the settled snapshot exactly when every
   * resource that was written decodes back to itself.
   */
  lemma AcceptedReload(schema: Schema, codec: Codec, before: Rows, next: Rows, preserve: set<ResourceKey>,
                       mutations: seq<Mutation>, keys: seq<ResourceKey>)
    requires Coherent(schema, codec)
    requires IsBatchFor(codec, next, preserve, mutations, keys) && schema.EachAccepted(mutations)
    requires InFileBuckets(codec, next)
    // preserved rows are in the snapshot as they are in the store
    requires forall key :: key in preserve && key.bucket in FileBuckets(codec) ==>
               (key in next <==> key in before) && (key in next ==> next[key] == before[key])
    ensures var after := schema.Committed(before, schema.Parse(mutations), BatchOptions(true, preserve));
            FileRows(codec, after) == next <==> forall key :: key in next && key !in preserve ==> RoundTrips(schema, codec, key)
  {
    var after := schema.Committed(before, schema.Parse(mutations), BatchOptions(true, preserve));
    if forall key :: key in next && key !in preserve ==> RoundTrips(schema, codec, key) {
      forall row: ResourceKey | row.bucket in FileBuckets(codec)
        ensures (row in after <==> row in next) && (row in next ==> after[row] == next[row])
      {
        WrittenRow(schema, codec, before, next, preserve, mutations, keys, row);
      }
      assert FileRows(codec, after) == next;
    } else {
      var key :| key in next && key !in preserve && !RoundTrips(schema, codec, key);
      LostRow(schema, codec, before, next, preserve, mutations, keys, key);
      assert key !in FileRows(codec, after);
    }
  }

  /** A row of the file is written by its own resource, or is as it was. */
  lemma WrittenRow(schema: Schema, codec: Codec, before: Rows, next: Rows, preserve: set<ResourceKey>,
                   mutations: seq<Mutation>, keys: seq<ResourceKey>, row: ResourceKey)
    requires codec.buckets == schema.buckets && row.bucket in FileBuckets(codec)
    requires IsBatchFor(codec, next, preserve, mutations, keys) && schema.EachAccepted(mutations)
    requires row in preserve ==> (row in next <==> row in before) && (row in next ==> next[row] == before[row])
    requires forall key :: key in next && key !in preserve ==> RoundTrips(schema, codec, key)
    ensures var after := schema.Committed(before, schema.Parse(mutations), BatchOptions(true, preserve));
            (row in after <==> row in next) && (row in next ==> after[row] == next[row])
  {
    assert forall i :: 0 <= i < |mutations| ==> schema.Accepts(mutations[i]);
    LastWriterDecides(schema, mutations, schema.Cleared(before, preserve), row);
    forall i | 0 <= i < |keys|
      ensures schema.decode(mutations[i].key) == Some(keys[i])
    {
      assert keys[i] in keys;
      assert RoundTrips(schema, codec, keys[i]);
    }
  }

  /** A resource that does not round-trip is written nowhere: nothing else decodes to it. */
  lemma LostRow(schema: Schema, codec: Codec, before: Rows, next: Rows, preserve: set<ResourceKey>,
                mutations: seq<Mutation>, keys: seq<ResourceKey>, row: ResourceKey)
    requires Coherent(schema, codec) && row.bucket in FileBuckets(codec) && row !in preserve && !RoundTrips(schema, codec, row)
    requires IsBatchFor(codec, next, preserve, mutations, keys) && schema.EachAccepted(mutations)
    ensures row !in schema.Committed(before, schema.Parse(mutations), BatchOptions(true, preserve))
  {
    assert forall i :: 0 <= i < |mutations| ==> schema.Accepts(mutations[i]);
    LastWriterDecides(schema, mutations, schema.Cleared(before, preserve), row);
    assert LastWriter(schema, mutations, row) == -1;
  }

  /** No resource of a file is written to another resource's row. */
  ghost predicate NeverAstray(schema: Schema, codec: Codec, file: Rows) {
    forall key :: key in file && schema.decode(codec.StandaloneKey(key)).Some? ==> RoundTrips(schema, codec, key)
  }

  lemma AcceptedRoundTrips(schema: Schema, codec: Codec, file: Rows, next: Rows, preserve: set<ResourceKey>,
                           mutations: seq<Mutation>, keys: seq<ResourceKey>)
    requires NeverAstray(schema, codec, file)
    requires IsBatchFor(codec, next, preserve, mutations, keys) && schema.EachAccepted(mutations)
    requires forall key :: key in next && key !in preserve ==> key in file
    ensures forall key :: key in next && key !in preserve ==> RoundTrips(schema, codec, key)
  {
    forall key | key in next && key !in preserve
      ensures RoundTrips(schema, codec, key)
    {
      assert key in keys;
      var i :| 0 <= i < |keys| && keys[i] == key;
      assert schema.Accepts(mutations[i]);
    }
  }

  /** A batch of PUTs has only operations the store supports. */
  lemma PutsAreSupported(schema: Schema, mutations: seq<Mutation>)
    requires forall i :: 0 <= i < |mutations| ==> mutations[i].kind.Put?
    ensures schema.Supported(mutations)
  {
    forall entry | entry in schema.Parse(mutations)
      ensures !entry.mutation.kind.Unsupported?
    {
      schema.ParsedEntry(mutations, entry);
    }
  }

  /** The store refuses at least one position of the offer, and none outside of it. */
  lemma RefusedAreOffered(schema: Schema, rows: Rows, mutations: seq<Mutation>, options: BatchOptions, rejected: seq<nat>)
    requires RefusedExactly(rejected, schema.RefusedBy(rows, mutations, options))
    ensures rejected != [] && forall i :: 0 <= i < |rejected| ==> rejected[i] < |mutations|
  {
    schema.CollisionsAreAccepted(rows, mutations, options);
    forall i | 0 <= i < |rejected|
      ensures rejected[i] < |mutations|
    {
      assert rejected[i] in rejected;
    }
  }

  /** Some resource of the file gives a consumer this lookup key. */
  ghost predicate FileGives(schema: Schema, codec: Codec, file: Rows, id: string, key: string) {
    exists resource :: resource in file && PutsKey(schema, Mutation(Put, codec.StandaloneKey(resource), file[resource]), id, key)
  }

  /**
   * A resource of the file is at fault: the store cannot decode its key, it is not valid, its
   * credentials do not parse, or it asks for a lookup key that another consumer has in the store or
   * is given by the file.
   */
  ghost predicate IsAtFault(schema: Schema, codec: Codec, rows: Rows, file: Rows, resource: ResourceKey)
    requires resource in file
  {
    match schema.decode(codec.StandaloneKey(resource))
    case None => true
    case Some(row) =>
      if row.bucket != schema.consumers then !schema.valid(row, file[resource])
      else match schema.lookupKeys(row.id, file[resource])
        case None => true
        case Some(keys) =>
          exists key, other :: key in keys && other != row.id && (HasKey(schema, rows, other, key) || FileGives(schema, codec, file, other, key))
  }

  /** The store refuses nothing of an offer that is not at fault. */
  lemma RefusedIsAtFault(schema: Schema, codec: Codec, rows: Rows, file: Rows, previous: Rows, preserve: set<ResourceKey>,
                         mutations: seq<Mutation>, keys: seq<ResourceKey>, i: nat)
    requires IsBatchFor(codec, Settled(file, previous, preserve), preserve, mutations, keys) && i < |keys|
    requires i in schema.RefusedBy(rows, mutations, BatchOptions(true, preserve))
    ensures keys[i] in file && IsAtFault(schema, codec, rows, file, keys[i])
  {
    OfferedAreOfTheFile(codec, file, previous, preserve, mutations, keys);
    RefusedMeaning(schema, rows, mutations, BatchOptions(true, preserve), i);
    if schema.Accepts(mutations[i]) {
      var id, key :| PutsKey(schema, mutations[i], id, key) && IsContested(schema, rows, mutations, id, key);
      var other :| other != id && (HasKey(schema, rows, other, key) || PutsKeyTo(schema, mutations, other, key));
      if PutsKeyTo(schema, mutations, other, key) {
        OfferGives(schema, codec, file, previous, preserve, mutations, keys, other, key);
      }
    }
  }

  /** A lookup key that an offer gives is given by the file. */
  lemma OfferGives(schema: Schema, codec: Codec, file: Rows, previous: Rows, preserve: set<ResourceKey>,
                   mutations: seq<Mutation>, keys: seq<ResourceKey>, id: string, key: string)
    requires IsBatchFor(codec, Settled(file, previous, preserve), preserve, mutations, keys) && PutsKeyTo(schema, mutations, id, key)
    ensures FileGives(schema, codec, file, id, key)
  {
    OfferedAreOfTheFile(codec, file, previous, preserve, mutations, keys);
    var j :| 0 <= j < |mutations| && PutsKey(schema, mutations[j], id, key);
    assert mutations[j] == Mutation(Put, codec.StandaloneKey(keys[j]), file[keys[j]]);
  }

  /** Only what is at fault is withdrawn. */
  ghost predicate IsFair(schema: Schema, codec: Codec, rows: Rows, file: Rows, unreadable: set<ResourceKey>, preserve: set<ResourceKey>) {
    forall resource :: resource in preserve ==> resource in unreadable || (resource in file && IsAtFault(schema, codec, rows, file, resource))
  }

  lemma WithdrawnFairly(schema: Schema, codec: Codec, rows: Rows, file: Rows, previous: Rows, unreadable: set<ResourceKey>, preserve: set<ResourceKey>,
                        mutations: seq<Mutation>, keys: seq<ResourceKey>, rejected: seq<nat>)
    requires IsBatchFor(codec, Settled(file, previous, preserve), preserve, mutations, keys)
    requires RefusedExactly(rejected, schema.RefusedBy(rows, mutations, BatchOptions(true, preserve)))
    requires IsFair(schema, codec, rows, file, unreadable, preserve)
    ensures IsFair(schema, codec, rows, file, unreadable, preserve + RejectedKeys(keys, rejected))
  {
    forall resource | resource in RejectedKeys(keys, rejected)
      ensures resource in file && IsAtFault(schema, codec, rows, file, resource)
    {
      var i :| 0 <= i < |rejected| && rejected[i] < |keys| && keys[rejected[i]] == resource;
      assert rejected[i] in rejected;
      RefusedIsAtFault(schema, codec, rows, file, previous, preserve, mutations, keys, rejected[i]);
    }
  }

  /** What is accepted at last is not at fault by itself. */
  lemma KeptIsValid(schema: Schema, codec: Codec, file: Rows, previous: Rows, preserve: set<ResourceKey>,
                    mutations: seq<Mutation>, keys: seq<ResourceKey>, resource: ResourceKey)
    requires IsBatchFor(codec, Settled(file, previous, preserve), preserve, mutations, keys) && schema.EachAccepted(mutations)
    requires resource in file && resource !in preserve
    ensures schema.Accepts(Mutation(Put, codec.StandaloneKey(resource), file[resource]))
  {
    assert resource in keys;
    var i :| 0 <= i < |keys| && keys[i] == resource;
    assert schema.Accepts(mutations[i]);
  }

  /** The resources at the rejected positions of an offer. */
  function RejectedKeys(keys: seq<ResourceKey>, rejected: seq<nat>): set<ResourceKey> {
    set i | 0 <= i < |rejected| && rejected[i] < |keys| :: keys[rejected[i]]
  }

  lemma RejectedNext(keys: seq<ResourceKey>, rejected: seq<nat>, i: nat)
    requires i < |rejected| && rejected[i] < |keys|
    ensures RejectedKeys(keys, rejected[..i + 1]) == RejectedKeys(keys, rejected[..i]) + {keys[rejected[i]]}
  {
    var before, after := RejectedKeys(keys, rejected[..i]), RejectedKeys(keys, rejected[..i + 1]);
    forall key | key in before + {keys[rejected[i]]}
      ensures key in after
    {
      if key in before {
        var j :| 0 <= j < i && rejected[..i][j] < |keys| && keys[rejected[..i][j]] == key;
        assert rejected[..i + 1][j] == rejected[..i][j];
      } else {
        assert rejected[..i + 1][i] == rejected[i];
      }
    }
    forall key | key in after
      ensures key in before + {keys[rejected[i]]}
    {
      var j :| 0 <= j < i + 1 && rejected[..i + 1][j] < |keys| && keys[rejected[..i + 1][j]] == key;
      if j < i {
        assert rejected[..i][j] == rejected[..i + 1][j];
      }
    }
  }

  /** What a settled snapshot still offers is in the file, and not withdrawn yet. */
  lemma OfferedAreOfTheFile(codec: Codec, file: Rows, previous: Rows, preserve: set<ResourceKey>,
                            mutations: seq<Mutation>, keys: seq<ResourceKey>)
    requires IsBatchFor(codec, Settled(file, previous, preserve), preserve, mutations, keys)
    ensures forall i :: 0 <= i < |keys| ==> keys[i] in file && keys[i] !in preserve
  {
    forall i | 0 <= i < |keys|
      ensures keys[i] in file && keys[i] !in preserve
    {
      assert keys[i] in keys;
    }
  }

  class StandaloneFileWatcher {
    const codec: Codec
    const store: Store
    var current: Rows

    constructor (codec: Codec, store: Store, seed: Rows)
      ensures this.codec == codec && this.store == store && current == seed
    {
      this.codec, this.store, current := codec, store, seed;
    }

    ghost predicate Valid()
      reads this, store
    {
      && store.Valid() && store.schema.Sound()
      && Coherent(store.schema, codec)
      && InFileBuckets(codec, current)
    }

    /** The last applied snapshot is what the store holds in the buckets of the file. */
    ghost predicate InStep()
      reads this, store
    {
      FileRows(codec, store.rows) == current
    }

    /** The PUTs a snapshot still offers, and the resources they are for. */
    method StandaloneMutations(next: Rows, preserve: set<ResourceKey>)
      returns (mutations: seq<Mutation>, keys: seq<ResourceKey>)
      ensures IsBatchFor(codec, next, preserve, mutations, keys)
    {
      mutations, keys := [], [];
      var pending := next.Keys - preserve;
      while pending != {}
        invariant pending <= next.Keys - preserve
        invariant |mutations| == |keys|
        invariant forall key :: key in keys <==> key in next && key !in preserve && key !in pending
        invariant forall i, j :: 0 <= i < j < |keys| ==> keys[i] != keys[j]
        invariant forall i :: 0 <= i < |keys| ==>
                    keys[i] in next && mutations[i] == Mutation(Put, codec.StandaloneKey(keys[i]), next[keys[i]])
        decreases |pending|
      {
        var key :| key in pending;
        pending := pending - {key};
        mutations := mutations + [Mutation(Put, codec.StandaloneKey(key), next[key])];
        keys := keys + [key];
      }
    }

    /** Withdraws the rejected resources from the next snapshot, in favour of their last good rows. */
    method Withdraw(file: Rows, keys: seq<ResourceKey>, rejected: seq<nat>, next: Rows, preserve: set<ResourceKey>)
      returns (bad: bool, added: bool, next': Rows, preserve': set<ResourceKey>)
      requires NamedRows(file) && NamedRows(current)
      requires next == Settled(file, current, preserve)
      requires forall key :: key in keys ==> key !in preserve
      ensures bad <==> exists i :: 0 <= i < |rejected| && rejected[i] >= |keys|
      ensures !bad ==> next' == Settled(file, current, preserve')
      ensures !bad ==> preserve' == preserve + RejectedKeys(keys, rejected)
      ensures !bad && rejected != [] ==> added
    {
      bad, added, next', preserve' := false, false, next, preserve;
      for i := 0 to |rejected|
        invariant forall j :: 0 <= j < i ==> rejected[j] < |keys|
        invariant next' == Settled(file, current, preserve')
        invariant preserve' == preserve + RejectedKeys(keys, rejected[..i])
        invariant i > 0 ==> added
        invariant !added ==> preserve' == preserve
      {
        if rejected[i] >= |keys| {
          return true, added, next', preserve';
        }
        var key := keys[rejected[i]];
        RejectedNext(keys, rejected, i);
        if key !in preserve' {
          preserve' := preserve' + {key};
          RetainSettles(file, current, preserve' - {key}, key);
          assert preserve' - {key} + {key} == preserve';
          next' := RetainLastGood(next', current, key);
          added := true;
        }
      }
      assert rejected[..|rejected|] == rejected;
    }

    /** Sends what a snapshot still offers to the store. */
    method Offer(next: Rows, preserve: set<ResourceKey>, delivery: Delivery)
      returns (sent: SendResult, keys: seq<ResourceKey>, ghost mutations: seq<Mutation>)
      requires Valid()
      modifies store
      ensures Valid() && IsBatchFor(codec, next, preserve, mutations, keys)
      ensures sent == Answer(Applied) ==>
                && store.schema.EachAccepted(mutations)
                && store.rows == store.schema.Committed(old(store.rows), store.schema.Parse(mutations), BatchOptions(true, preserve))
      ensures sent.Answer? && sent.outcome.Invalid? ==>
                && store.rows == old(store.rows)
                && RefusedExactly(sent.outcome.rejected, store.schema.RefusedBy(old(store.rows), mutations, BatchOptions(true, preserve)))
                && sent.outcome.rejected != [] && forall i :: 0 <= i < |sent.outcome.rejected| ==> sent.outcome.rejected[i] < |keys|
      ensures delivery == Delivered(false, false) ==> sent == Answer(Applied) || (sent.Answer? && sent.outcome.Invalid?)
    {
      var offer;
      offer, keys := StandaloneMutations(next, preserve);
      mutations := offer;
      ghost var rows := store.rows;
      PutsAreSupported(store.schema, offer);
      sent := store.Submit(offer, BatchOptions(true, preserve), delivery);
      if sent.Answer? && sent.outcome.Invalid? {
        RefusedAreOffered(store.schema, rows, offer, BatchOptions(true, preserve), sent.outcome.rejected);
      }
    }

    /** The store's answer to one offer, and what is offered next when some of it was rejected. */
    method OfferOnce(file: Rows, ghost unreadable: set<ResourceKey>, preserve: set<ResourceKey>, next: Rows, delivery: Delivery)
      returns (result: Option<ReloadResult>, next': Rows, preserve': set<ResourceKey>, ghost mutations: seq<Mutation>, ghost keys: seq<ResourceKey>)
      requires Valid() && NamedRows(file) && next == Settled(file, current, preserve)
      requires IsFair(store.schema, codec, store.rows, file, unreadable, preserve)
      modifies store
      ensures Valid() && current == old(current)
      ensures IsFair(store.schema, codec, old(store.rows), file, unreadable, preserve')
      ensures result.Some? ==> (result.value.Reloaded? || result.value.ApplyFailed?) && next' == next
      ensures delivery == Delivered(false, false) && result.Some? ==> result.value.Reloaded?
      ensures result.Some? && result.value.Reloaded? ==>
                && result.value.quarantined == preserve && IsBatchFor(codec, next, preserve, mutations, keys)
                && store.schema.EachAccepted(mutations)
                && store.rows == store.schema.Committed(old(store.rows), store.schema.Parse(mutations), BatchOptions(true, preserve))
      ensures result.None? ==>
                && store.rows == old(store.rows) && next' == Settled(file, current, preserve')
                && preserve <= preserve' <= preserve + file.Keys && |file.Keys - preserve'| < |file.Keys - preserve|
    {
      next', preserve' := next, preserve;
      var sent, resources;
      sent, resources, mutations := Offer(next, preserve, delivery);
      keys := resources;
      if sent == Answer(Applied) {
        result := Some(Reloaded(preserve));
        return;
      }
      if sent.ContextDone? || !sent.outcome.Invalid? {
        result := Some(ApplyFailed);
        return;
      }
      result, next', preserve' := Respond(file, unreadable, preserve, next, mutations, resources, sent.outcome.rejected);
    }

    /** What is offered next after a refusal; a bad index or no progress would end the reload. */
    method Respond(file: Rows, ghost unreadable: set<ResourceKey>, preserve: set<ResourceKey>, next: Rows,
                   ghost mutations: seq<Mutation>, keys: seq<ResourceKey>, rejected: seq<nat>)
      returns (result: Option<ReloadResult>, next': Rows, preserve': set<ResourceKey>)
      requires NamedRows(file) && NamedRows(current) && next == Settled(file, current, preserve)
      requires IsBatchFor(codec, next, preserve, mutations, keys) && rejected != [] && forall i :: 0 <= i < |rejected| ==> rejected[i] < |keys|
      requires RefusedExactly(rejected, store.schema.RefusedBy(store.rows, mutations, BatchOptions(true, preserve)))
      requires IsFair(store.schema, codec, store.rows, file, unreadable, preserve)
      ensures result.None? && next' == Settled(file, current, preserve')
      ensures IsFair(store.schema, codec, store.rows, file, unreadable, preserve')
      ensures preserve <= preserve' <= preserve + file.Keys && |file.Keys - preserve'| < |file.Keys - preserve|
    {
      OfferedAreOfTheFile(codec, file, current, preserve, mutations, keys);
      WithdrawnFairly(store.schema, codec, store.rows, file, current, unreadable, preserve, mutations, keys, rejected);
      var bad, added;
      bad, added, next', preserve' := Withdraw(file, keys, rejected, next, preserve);
      if bad {
        result := Some(BadIndex);
        return;
      }
      if !added {
        result := Some(NoProgress);
        return;
      }
      SmallerOffer(file.Keys - preserve, file.Keys - preserve', keys[rejected[0]]);
      result := None;
    }

    /**
     * Offers a snapshot to the store until it is accepted. The loop ends because every round
     * withdraws at least one resource that was still offered.
     */
    method OfferUntilAccepted(file: Rows, unreadable: set<ResourceKey>, environment: nat -> Delivery)
      returns (result: ReloadResult, next: Rows, ghost mutations: seq<Mutation>, ghost keys: seq<ResourceKey>)
      requires Valid() && NamedRows(file)
      modifies store
      ensures Valid() && current == old(current)
      ensures result.Reloaded? || result.ApplyFailed?
      // no rejection makes a reload fail: it takes a fault of a delivery
      ensures (forall n :: environment(n) == Delivered(false, false)) ==> result.Reloaded?
      ensures result.Reloaded? ==>
                && unreadable <= result.quarantined <= unreadable + file.Keys
                && IsFair(store.schema, codec, old(store.rows), file, unreadable, result.quarantined)
                && next == Settled(file, current, result.quarantined)
                && IsBatchFor(codec, next, result.quarantined, mutations, keys)
                && store.schema.EachAccepted(mutations)
                && store.rows == store.schema.Committed(old(store.rows), store.schema.Parse(mutations),
                                                        BatchOptions(true, result.quarantined))
    {
      var preserve := unreadable;
      next := Retain(file, unreadable);
      var attempt := 0;
      while true
        invariant Valid() && current == old(current) && store.rows == old(store.rows)
        invariant next == Settled(file, current, preserve)
        invariant unreadable <= preserve <= unreadable + file.Keys
        invariant IsFair(store.schema, codec, store.rows, file, unreadable, preserve)
        decreases |file.Keys - preserve|
      {
        var answer;
        answer, next, preserve, mutations, keys := OfferOnce(file, unreadable, preserve, next, environment(attempt));
        attempt := attempt + 1;
        if answer.Some? {
          result := answer.value;
          return;
        }
      }
    }

    static lemma SmallerOffer(before: set<ResourceKey>, after: set<ResourceKey>, withdrawn: ResourceKey)
      requires after <= before && withdrawn in before && withdrawn !in after
      ensures |after| < |before|
    {
      SubsetSize(after, before - {withdrawn});
    }

    /** Reloads the file. `unreadable` are the resources of the file that did not decode. */
    method ReloadSnapshot(readFails: bool, file: Rows, unreadable: set<ResourceKey>,
                          environment: nat -> Delivery, stopped: bool)
      returns (result: ReloadResult)
      requires Valid() && InFileBuckets(codec, file)
      modifies this, store
      ensures Valid()
      ensures !result.BadIndex? && !result.NoProgress?
      // a readable file is reloaded whatever it holds, unless the watcher stops or a delivery fails
      ensures result.ReadFailed? <==> readFails
      ensures result.Stopped? ==> stopped
      ensures result.Reloaded? ==> !stopped
      ensures !readFails && !stopped && (forall n :: environment(n) == Delivered(false, false)) ==> result.Reloaded?
      ensures result.Reloaded? ==>
                && unreadable <= result.quarantined <= unreadable + file.Keys
                && current == Settled(file, old(current), result.quarantined)
      // what is quarantined is unreadable or at fault, and everything that is at fault by itself is
      ensures result.Reloaded? ==> IsFair(store.schema, codec, old(store.rows), file, unreadable, result.quarantined)
      ensures result.Reloaded? ==> forall resource :: resource in file && resource !in result.quarantined ==>
                var row := store.schema.decode(codec.StandaloneKey(resource));
                && row.Some?
                && (if row.value.bucket == store.schema.consumers then store.schema.lookupKeys(row.value.id, file[resource]).Some?
                    else store.schema.valid(row.value, file[resource]))
      ensures !result.Reloaded? ==> current == old(current)
      // the store follows the snapshot exactly when what was written decodes back to itself
      ensures result.Reloaded? && old(InStep()) ==>
                (InStep() <==> forall key :: key in current && key !in result.quarantined ==> RoundTrips(store.schema, codec, key))
      // so it is enough that no resource of the file decodes to another one
      ensures result.Reloaded? && old(InStep()) && NeverAstray(store.schema, codec, file) ==> InStep()
    {
      if readFails {
        return ReadFailed;
      }
      var next;
      ghost var mutations, keys;
      ghost var before := store.rows;
      result, next, mutations, keys := OfferUntilAccepted(file, unreadable, environment);
      if !result.Reloaded? {
        return;
      }
      if stopped {
        return Stopped;
      }
      forall resource | resource in file && resource !in result.quarantined
        ensures store.schema.Accepts(Mutation(Put, codec.StandaloneKey(resource), file[resource]))
      {
        KeptIsValid(store.schema, codec, file, current, result.quarantined, mutations, keys, resource);
      }
      if FileRows(codec, before) == current {
        AcceptedReload(store.schema, codec, before, next, result.quarantined, mutations, keys);
        if NeverAstray(store.schema, codec, file) {
          AcceptedRoundTrips(store.schema, codec, file, next, result.quarantined, mutations, keys);
        }
      }
      current := next;
    }

    /** Withdraws the unreadable resources before anything is offered. */
    method Retain(file: Rows, unreadable: set<ResourceKey>) returns (next: Rows)
      requires NamedRows(file) && NamedRows(current)
      ensures next == Settled(file, current, unreadable)
    {
      next := file;
      SettledNothing(file, current);
      var pending := unreadable;
      while pending != {}
        invariant pending <= unreadable
        invariant next == Settled(file, current, unreadable - pending)
        decreases |pending|
      {
        var key :| key in pending;
        RetainSettles(file, current, unreadable - pending, key);
        assert unreadable - (pending - {key}) == unreadable - pending + {key};
        pending := pending - {key};
        next := RetainLastGood(next, current, key);
      }
      assert unreadable - {} == unreadable;
    }
  }
}
