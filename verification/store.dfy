/**
 * The durable store: one batch of mutations is validated, committed in one transaction and then
 * published to the consumer indexes and the generation counters.
 */
module ConfigStore {
  import opened Basics
  import opened Keys

  /** The bytes of one stored resource. */
  type Value = string

  type Rows = map<ResourceKey, Value>

  /** Consumer id to the lookup keys its credentials register. */
  type ConsumerTable = map<string, seq<string>>

  datatype EventType = Put | Delete | Unsupported(code: int)

  datatype Mutation = Mutation(kind: EventType, key: string, value: Value)

  datatype ParsedMutation = ParsedMutation(mutation: Mutation, key: ResourceKey, index: nat)

  datatype BatchOptions = BatchOptions(replaceManaged: bool, preserve: set<ResourceKey>)

  /** How a batch ended: the last two leave the batch committed, or fail after the commit. */
  datatype Outcome =
    | Applied
    | Invalid(rejected: seq<nat>)
    | UnsupportedType
    | CommitFailed
    | IndexFailed
    | HookFailed

  /** No lookup key is registered by two consumers. */
  ghost predicate OneOwner(table: ConsumerTable) {
    forall a, b, key :: a in table && b in table && key in table[a] && key in table[b] ==> a == b
  }

  function ApplyOne(rows: Rows, entry: ParsedMutation): Rows {
    match entry.mutation.kind
    case Put => rows[entry.key := entry.mutation.value]
    case _ => rows - {entry.key}
  }

  function ApplyAll(rows: Rows, parsed: seq<ParsedMutation>): Rows {
    if parsed == [] then rows
    else ApplyOne(ApplyAll(rows, parsed[..|parsed| - 1]), parsed[|parsed| - 1])
  }

  /** The last mutation of every resource a batch touches. */
  function LastMutations(parsed: seq<ParsedMutation>): map<ResourceKey, ParsedMutation> {
    if parsed == [] then map[]
    else LastMutations(parsed[..|parsed| - 1])[parsed[|parsed| - 1].key := parsed[|parsed| - 1]]
  }

  /** A committed batch leaves each row as its last mutation wants it, and the other rows alone. */
  lemma {:induction false} ApplyAllRow(rows: Rows, parsed: seq<ParsedMutation>, key: ResourceKey)
    ensures var last := LastMutations(parsed);
            var after := ApplyAll(rows, parsed);
            if key !in last then (key in after <==> key in rows) && (key in rows ==> after[key] == rows[key])
            else if last[key].mutation.kind.Put? then key in after && after[key] == last[key].mutation.value
            else key !in after
  {
    if parsed != [] {
      ApplyAllRow(rows, parsed[..|parsed| - 1], key);
    }
  }

  lemma {:induction false} LastMutationsMembers(parsed: seq<ParsedMutation>)
    ensures forall key :: key in LastMutations(parsed) ==>
              LastMutations(parsed)[key] in parsed && LastMutations(parsed)[key].key == key
    ensures forall entry :: entry in parsed ==> entry.key in LastMutations(parsed)
  {
    if parsed != [] {
      var front := parsed[..|parsed| - 1];
      LastMutationsMembers(front);
      assert parsed == front + [parsed[|parsed| - 1]];
    }
  }

  /** Indices grow along a parsed batch. */
  ghost predicate Indexed(parsed: seq<ParsedMutation>) {
    forall i, j :: 0 <= i < j < |parsed| ==> parsed[i].index < parsed[j].index
  }

  ghost predicate Increasing(s: seq<nat>) {
    forall i, j :: 0 <= i < j < |s| ==> s[i] < s[j]
  }

  /**
   * A batch as lookup-key validation sees it: the current consumer table, the parsed mutations with
   * the last one of each resource, and the credentials of the consumer PUTs by position.
   */
  datatype Batch = Batch(
    consumers: string,
    table: ConsumerTable,
    parsed: seq<ParsedMutation>,
    last: map<ResourceKey, ParsedMutation>,
    credentials: map<nat, seq<string>>,
    options: BatchOptions
  ) {
    ghost predicate WellFormed() {
      && OneOwner(table) && "" !in table && Indexed(parsed)
      && (forall key :: key in last ==> last[key] in parsed && last[key].key == key)
      && (forall i :: 0 <= i < |parsed| ==> parsed[i].key in last && parsed[i].key.id != "")
    }

    function RowOf(id: string): ResourceKey {
      ResourceKey(consumers, id)
    }

    /** A consumer PUT that is the last mutation of its row and whose credentials were prepared. */
    predicate Decides(entry: ParsedMutation) {
      && entry.key.bucket == consumers && entry.mutation.kind.Put? && entry.index in credentials
      && entry.key in last && last[entry.key] == entry
    }

    /** Whether a consumer keeps a lookup key of its current row while the batch is validated. */
    predicate Keeps(id: string, key: string) {
      && id in table && key in table[id]
      && if RowOf(id) in last then
           var entry := last[RowOf(id)];
           entry.mutation.kind.Put? && (entry.index in credentials ==> key in credentials[entry.index])
         else
           options.replaceManaged ==> RowOf(id) in options.preserve
    }

    /** A deciding PUT among the first ones that was not refused gives the consumer this lookup key. */
    ghost predicate Claims(n: nat, refused: set<nat>, id: string, key: string)
      requires n <= |parsed|
    {
      exists i :: 0 <= i < n && Decides(parsed[i]) && parsed[i].index !in refused
                  && parsed[i].key.id == id && key in credentials[parsed[i].index]
    }

    ghost predicate Claimant(n: nat, refused: set<nat>, id: string, key: string)
      requires n <= |parsed|
    {
      Keeps(id, key) || Claims(n, refused, id, key)
    }

    /** Another consumer has one of the entry's lookup keys by then. */
    ghost predicate Collides(n: nat, refused: set<nat>, entry: ParsedMutation)
      requires n <= |parsed| && entry.index in credentials
    {
      exists key, other :: key in credentials[entry.index] && other != entry.key.id && Claimant(n, refused, other, key)
    }

    /** The positions that validation refuses among the first parsed mutations. */
    ghost function Colliding(n: nat): set<nat>
      requires n <= |parsed|
    {
      if n == 0 then {}
      else
        var before := Colliding(n - 1);
        var entry := parsed[n - 1];
        if Decides(entry) && Collides(n - 1, before, entry) then before + {entry.index} else before
    }

    // ----- what the batch would leave -----

    /** The stored row of a consumer stays: the batch neither names it nor clears it. */
    predicate Stays(id: string, key: string) {
      && id in table && key in table[id]
      && RowOf(id) !in last && (options.replaceManaged ==> RowOf(id) in options.preserve)
    }

    /** The batch's last word on a consumer is a PUT that gives it this lookup key. */
    predicate Gives(id: string, key: string) {
      RowOf(id) in last && Decides(last[RowOf(id)]) && key in credentials[last[RowOf(id)].index]
    }

    /**
     * No lookup key that a deciding PUT gives to one consumer belongs to another whose stored row
     * stays, or is given to another by a deciding PUT.
     */
    ghost predicate Free() {
      forall id, other, key :: Gives(id, key) && other != id ==> !Stays(other, key) && !Gives(other, key)
    }

    ghost predicate AllPrepared() {
      forall i :: 0 <= i < |parsed| && parsed[i].key.bucket == consumers && parsed[i].mutation.kind.Put? ==> parsed[i].index in credentials
    }

    lemma ClaimIsGiven(n: nat, refused: set<nat>, id: string, key: string)
      requires WellFormed() && AllPrepared() && n <= |parsed| && Claimant(n, refused, id, key)
      ensures Stays(id, key) || Gives(id, key)
    {
      if !Keeps(id, key) {
        var i :| 0 <= i < n && Decides(parsed[i]) && parsed[i].index !in refused
                 && parsed[i].key.id == id && key in credentials[parsed[i].index];
        assert parsed[i].key == RowOf(id);
      }
    }

    lemma GivenIsClaimed(id: string, key: string)
      requires WellFormed() && (Stays(id, key) || Gives(id, key))
      ensures Claimant(|parsed|, {}, id, key)
    {
      if Gives(id, key) {
        var i :| 0 <= i < |parsed| && parsed[i] == last[RowOf(id)];
        assert Decides(parsed[i]);
      }
    }

    /** A refused position is that of a deciding PUT that collided when its turn came. */
    lemma {:induction false} CollisionWitness(n: nat, x: nat) returns (m: nat)
      requires n <= |parsed| && x in Colliding(n)
      ensures m < n && parsed[m].index == x && Decides(parsed[m]) && Collides(m, Colliding(m), parsed[m])
    {
      if x in Colliding(n - 1) {
        m := CollisionWitness(n - 1, x);
      } else {
        m := n - 1;
      }
    }

    lemma {:induction false} CollidingGrows(m: nat, n: nat)
      requires m <= n <= |parsed|
      ensures Colliding(m) <= Colliding(n)
    {
      if m < n {
        CollidingGrows(m, n - 1);
      }
    }

    /** A claim is an older one, or that of the last entry. */
    lemma ClaimantBefore(n: nat, id: string, key: string)
      requires 0 < n <= |parsed| && Claimant(n, {}, id, key)
      ensures Claimant(n - 1, {}, id, key) || (Decides(parsed[n - 1]) && parsed[n - 1].key.id == id && key in credentials[parsed[n - 1].index])
    {
    }

    /** An entry that is not refused has no key that was another's by then. */
    lemma AcceptedIsClaimant(n: nat, other: string, key: string)
      requires n < |parsed| && Colliding(n) == Colliding(n + 1) == {}
      requires Decides(parsed[n]) && key in credentials[parsed[n].index]
      ensures Claimant(n, {}, other, key) ==> other == parsed[n].key.id
    {
      assert !Collides(n, Colliding(n), parsed[n]);
    }

    /** With nothing refused, no two consumers claim one key. */
    lemma {:induction false} UniqueClaimant(n: nat, a: string, b: string, key: string)
      requires n <= |parsed| && Colliding(n) == {} && OneOwner(table)
      requires Claimant(n, {}, a, key) && Claimant(n, {}, b, key)
      ensures a == b
    {
      if n > 0 {
        var m := n - 1;
        CollidingGrows(m, n);
        ClaimantBefore(n, a, key);
        ClaimantBefore(n, b, key);
        if Decides(parsed[m]) && key in credentials[parsed[m].index] {
          AcceptedIsClaimant(m, a, key);
          AcceptedIsClaimant(m, b, key);
        } else {
          UniqueClaimant(m, a, b, key);
        }
      }
    }

    /** Validation refuses nothing exactly when the batch takes no key from anyone. */
    lemma NothingCollides()
      requires WellFormed() && AllPrepared()
      ensures Colliding(|parsed|) == {} <==> Free()
    {
      if Colliding(|parsed|) != {} {
        var x := SomeElement(Colliding(|parsed|));
        var m := CollisionWitness(|parsed|, x);
        var key, other :| key in credentials[parsed[m].index] && other != parsed[m].key.id && Claimant(m, Colliding(m), other, key);
        ClaimIsGiven(m, Colliding(m), other, key);
        assert parsed[m].key == RowOf(parsed[m].key.id);
        assert Gives(parsed[m].key.id, key);
      } else {
        forall id, other, key | Gives(id, key) && other != id
          ensures !Stays(other, key) && !Gives(other, key)
        {
          GivenIsClaimed(id, key);
          if Stays(other, key) || Gives(other, key) {
            GivenIsClaimed(other, key);
            UniqueClaimant(|parsed|, id, other, key);
          }
        }
        assert Free();
      }
    }

    /** A deciding PUT that wants a key which another consumer has by then is refused. */
    lemma CollisionRefuses(n: nat, other: string, key: string)
      requires n < |parsed| && Decides(parsed[n]) && key in credentials[parsed[n].index]
      requires other != parsed[n].key.id && Claimant(n, Colliding(n), other, key)
      ensures parsed[n].index in Colliding(n + 1) && parsed[n].index in Colliding(|parsed|)
    {
      assert Collides(n, Colliding(n), parsed[n]);
      CollidingGrows(n + 1, |parsed|);
    }

    /** A deciding PUT that wants a key which another consumer keeps is refused. */
    lemma KeeperWins(n: nat, other: string, key: string)
      requires n < |parsed| && Decides(parsed[n]) && key in credentials[parsed[n].index]
      requires other != parsed[n].key.id && Keeps(other, key)
      ensures parsed[n].index in Colliding(|parsed|)
    {
      CollisionRefuses(n, other, key);
    }

    /** Of two deciding PUTs of different consumers with a common key, one is refused. */
    lemma EarlierWins(m: nat, n: nat, key: string)
      requires m < n < |parsed| && Decides(parsed[m]) && Decides(parsed[n]) && parsed[m].key.id != parsed[n].key.id
      requires key in credentials[parsed[m].index] && key in credentials[parsed[n].index]
      ensures parsed[m].index in Colliding(|parsed|) || parsed[n].index in Colliding(|parsed|)
    {
      CollidingGrows(n, |parsed|);
      if parsed[m].index !in Colliding(n) {
        assert Claims(n, Colliding(n), parsed[m].key.id, key);
        CollisionRefuses(n, parsed[m].key.id, key);
      }
    }

    // ----- the owners that validation tracks -----

    /** An entry is the last of its row exactly if its position is that of the last one. */
    lemma DecidesByIndex(n: nat)
      requires WellFormed() && n < |parsed|
      ensures var entry := parsed[n];
        Decides(entry) <==> entry.key.bucket == consumers && entry.mutation.kind.Put? && last[entry.key].index == entry.index && entry.index in credentials
    {
      var i :| 0 <= i < |parsed| && parsed[i] == last[parsed[n].key];
    }

    /** The owners map is exactly the claims so far. */
    ghost predicate Tracks(owners: map<string, string>, n: nat)
      requires n <= |parsed|
    {
      forall id, key :: Claimant(n, Colliding(n), id, key) <==> key in owners && owners[key] == id
    }

    lemma ClaimsNext(n: nat, id: string, key: string)
      requires WellFormed() && n < |parsed|
      ensures var entry := parsed[n];
        Claims(n + 1, Colliding(n + 1), id, key) <==>
        || Claims(n, Colliding(n), id, key)
        || (Decides(entry) && !Collides(n, Colliding(n), entry) && entry.key.id == id && key in credentials[entry.index])
    {
      var entry := parsed[n];
      forall i | 0 <= i < n
        ensures parsed[i].index in Colliding(n + 1) <==> parsed[i].index in Colliding(n)
      {
        assert parsed[i].index < parsed[n].index;
      }
      if parsed[n].index in Colliding(n) {
        var m := CollisionWitness(n, parsed[n].index);
      }
    }

    /** The owners after one more mutation: its claims if it decides and does not collide. */
    lemma TrackNext(owners: map<string, string>, n: nat)
      requires WellFormed() && n < |parsed| && Tracks(owners, n)
      ensures var entry := parsed[n];
        if Decides(entry) && !Collides(n, Colliding(n), entry)
        then Tracks(owners + (map key | key in credentials[entry.index] :: entry.key.id), n + 1)
        else Tracks(owners, n + 1)
    {
      var entry := parsed[n];
      var claims := Decides(entry) && !Collides(n, Colliding(n), entry);
      var after := if claims then owners + (map key | key in credentials[entry.index] :: entry.key.id) else owners;
      var next, refused := n + 1, Colliding(n + 1);
      forall id, key
        ensures Claimant(next, refused, id, key) <==> key in after && after[key] == id
      {
        ClaimsNext(n, id, key);
        assert Claimant(n, Colliding(n), id, key) <==> key in owners && owners[key] == id;
        if claims && key in credentials[entry.index] && key in owners {
          assert Claimant(n, Colliding(n), owners[key], key);
        }
      }
    }

    /** The refused positions among the first mutations, in order. */
    ghost predicate Refused(rejected: seq<nat>, n: nat)
      requires n <= |parsed|
    {
      && Increasing(rejected) && (forall i :: i in rejected <==> i in Colliding(n))
      && (forall i :: 0 <= i < |rejected| && n < |parsed| ==> rejected[i] < parsed[n].index)
    }

    lemma RefusedNext(rejected: seq<nat>, n: nat)
      requires WellFormed() && n < |parsed| && Refused(rejected, n)
      ensures Refused(if Decides(parsed[n]) && Collides(n, Colliding(n), parsed[n]) then rejected + [parsed[n].index] else rejected, n + 1)
    {
    }

    /** The owners map shows whether a deciding PUT collides; no owner has the empty name. */
    lemma CollisionShows(owners: map<string, string>, n: nat, entry: ParsedMutation)
      requires WellFormed() && n <= |parsed| && Tracks(owners, n) && entry.index in credentials
      ensures Collides(n, Colliding(n), entry) <==>
              exists key :: key in credentials[entry.index] && key in owners && owners[key] != "" && owners[key] != entry.key.id
    {
      forall key | key in owners
        ensures owners[key] != "" && Claimant(n, Colliding(n), owners[key], key)
      {
        assert Claimant(n, Colliding(n), owners[key], key);
      }
    }
  }

  /** What the store knows of resource contents: how keys decode, validity, and consumer credentials. */
  datatype Schema = Schema(
    buckets: set<string>,
    consumers: string,
    secrets: string,
    protos: string,
    httpBuckets: set<string>,
    decode: string -> Option<ResourceKey>,
    valid: (ResourceKey, Value) -> bool,
    lookupKeys: (string, Value) -> Option<seq<string>>
  ) {
    /** Consumers are managed, and no key decodes to a resource without an id. */
    ghost predicate Sound() {
      && consumers in buckets
      && forall key :: decode(key).Some? ==> decode(key).value.id != ""
    }

    predicate IsConsumer(key: ResourceKey) {
      key.bucket == consumers
    }

    /** Whether a PUT of this value passes the checks that look at no other resource. */
    predicate PutAccepted(key: ResourceKey, value: Value) {
      if IsConsumer(key) then lookupKeys(key.id, value).Some? else valid(key, value)
    }

    function ConsumerKey(id: string): ResourceKey {
      ResourceKey(consumers, id)
    }

    function ConsumerIds(rows: Rows): (ids: set<string>)
      ensures forall id :: id in ids <==> ConsumerKey(id) in rows
    {
      set key | key in rows && IsConsumer(key) :: key.id
    }

    /** The lookup keys of a consumer row, if the row exists and parses. */
    function RowKeys(rows: Rows, id: string): Option<seq<string>> {
      if ConsumerKey(id) in rows then lookupKeys(id, rows[ConsumerKey(id)]) else None
    }

    /** The table the consumer rows stand for; rows that do not parse are skipped. */
    function Table(rows: Rows): ConsumerTable {
      map id | id in ConsumerIds(rows) && RowKeys(rows, id).Some? :: RowKeys(rows, id).value
    }

    /** The rows an authoritative replacement keeps before it writes its own. */
    function Cleared(rows: Rows, preserve: set<ResourceKey>): Rows {
      map key | key in rows && (key in preserve || key.bucket !in buckets) :: rows[key]
    }

    function Base(rows: Rows, options: BatchOptions): Rows {
      if options.replaceManaged then Cleared(rows, options.preserve) else rows
    }

    /** The rows a committed batch leaves. */
    function Committed(rows: Rows, parsed: seq<ParsedMutation>, options: BatchOptions): Rows {
      ApplyAll(Base(rows, options), parsed)
    }

    /** The mutations of a batch whose key decodes, with their position in the batch. */
    function Parse(mutations: seq<Mutation>): seq<ParsedMutation> {
      if mutations == [] then []
      else
        var n := |mutations| - 1;
        var key := decode(mutations[n].key);
        Parse(mutations[..n]) + (if key.Some? then [ParsedMutation(mutations[n], key.value, n)] else [])
    }

    /** Every mutation decodes, and every PUT passes its own checks. */
    ghost predicate EachAccepted(mutations: seq<Mutation>) {
      forall i :: 0 <= i < |mutations| ==> Accepts(mutations[i])
    }

    /** The mutation decodes, and if it is a PUT it passes its own checks. */
    predicate Accepts(mutation: Mutation) {
      var key := decode(mutation.key);
      key.Some? && (mutation.kind.Put? ==> PutAccepted(key.value, mutation.value))
    }

    /** A batch that may be committed: sound one by one, and leaving one owner per lookup key. */
    ghost predicate Acceptable(rows: Rows, mutations: seq<Mutation>, options: BatchOptions) {
      && EachAccepted(mutations)
      && OneOwner(Table(Committed(rows, Parse(mutations), options)))
    }

    /** The lookup keys a consumer has once a batch is committed. */
    lemma CommittedConsumer(rows: Rows, parsed: seq<ParsedMutation>, options: BatchOptions, id: string)
      requires consumers in buckets
      ensures var last := LastMutations(parsed);
              RowKeys(Committed(rows, parsed, options), id) ==
              if ConsumerKey(id) in last then
                var mutation := last[ConsumerKey(id)].mutation;
                if mutation.kind.Put? then lookupKeys(id, mutation.value) else None
              else if options.replaceManaged && ConsumerKey(id) !in options.preserve then None
              else RowKeys(rows, id)
    {
      ApplyAllRow(Base(rows, options), parsed, ConsumerKey(id));
    }

    /** The lookup keys of each consumer PUT of a batch that parses, by position. */
    function Credentials(mutations: seq<Mutation>): map<nat, seq<string>> {
      map i | 0 <= i < |mutations| && CredentialsOf(mutations[i]).Some? :: CredentialsOf(mutations[i]).value
    }

    function CredentialsOf(mutation: Mutation): Option<seq<string>> {
      var key := decode(mutation.key);
      if key.Some? && IsConsumer(key.value) && mutation.kind.Put? then lookupKeys(key.value.id, mutation.value) else None
    }

    /** A batch as lookup-key validation sees it. */
    function BatchOf(rows: Rows, mutations: seq<Mutation>, options: BatchOptions): Batch {
      var parsed := Parse(mutations);
      Batch(consumers, Table(rows), parsed, LastMutations(parsed), Credentials(mutations), options)
    }

    /** The positions the store refuses: mutations that fail their own check, and colliding PUTs. */
    ghost function RefusedBy(rows: Rows, mutations: seq<Mutation>, options: BatchOptions): set<nat> {
      (set i | 0 <= i < |mutations| && !Accepts(mutations[i])) + BatchOf(rows, mutations, options).Colliding(|Parse(mutations)|)
    }

    /** Every mutation that decodes is a PUT or a DELETE. */
    ghost predicate Supported(mutations: seq<Mutation>) {
      forall entry :: entry in Parse(mutations) ==> !entry.mutation.kind.Unsupported?
    }

    lemma BatchIsWellFormed(rows: Rows, mutations: seq<Mutation>, options: BatchOptions)
      requires Sound() && NamedRows(rows) && OneOwner(Table(rows))
      ensures BatchOf(rows, mutations, options).WellFormed()
    {
      var parsed := Parse(mutations);
      ParseIndexed(mutations);
      LastMutationsMembers(parsed);
      forall i | 0 <= i < |parsed|
        ensures parsed[i].key in LastMutations(parsed) && parsed[i].key.id != ""
      {
        assert parsed[i] in parsed;
        ParsedEntry(mutations, parsed[i]);
      }
    }

    lemma AcceptedArePrepared(rows: Rows, mutations: seq<Mutation>, options: BatchOptions)
      requires EachAccepted(mutations)
      ensures BatchOf(rows, mutations, options).AllPrepared()
    {
      var parsed := Parse(mutations);
      forall i | 0 <= i < |parsed| && parsed[i].key.bucket == consumers && parsed[i].mutation.kind.Put?
        ensures parsed[i].index in Credentials(mutations)
      {
        ParsedEntry(mutations, parsed[i]);
        assert Accepts(mutations[parsed[i].index]);
      }
    }

    /** The credentials of a parsed entry. */
    lemma EntryCredentials(mutations: seq<Mutation>, entry: ParsedMutation)
      requires entry in Parse(mutations)
      ensures entry.index in Credentials(mutations) <==> CredentialsOf(entry.mutation).Some?
      ensures entry.index in Credentials(mutations) ==> Credentials(mutations)[entry.index] == CredentialsOf(entry.mutation).value
      ensures decode(entry.mutation.key) == Some(entry.key)
    {
      ParsedEntry(mutations, entry);
    }

    /** A consumer has a lookup key after an accepted batch exactly if its stored row stays or the batch gives it. */
    lemma FinalTable(rows: Rows, mutations: seq<Mutation>, options: BatchOptions, id: string, key: string)
      requires Sound() && EachAccepted(mutations)
      ensures var final := Table(Committed(rows, Parse(mutations), options));
              var batch := BatchOf(rows, mutations, options);
              id in final && key in final[id] <==> batch.Stays(id, key) || batch.Gives(id, key)
    {
      var parsed := Parse(mutations);
      var last := LastMutations(parsed);
      var after := Committed(rows, parsed, options);
      LastMutationsMembers(parsed);
      CommittedConsumer(rows, parsed, options, id);
      assert id in Table(after) <==> RowKeys(after, id).Some?;
      assert id in Table(rows) <==> RowKeys(rows, id).Some?;
      if ConsumerKey(id) in last {
        EntryCredentials(mutations, last[ConsumerKey(id)]);
      }
    }

    /** An accepted batch leaves one owner per key exactly when it takes no key from anyone. */
    lemma FreeIsOneOwner(rows: Rows, mutations: seq<Mutation>, options: BatchOptions)
      requires Sound() && NamedRows(rows) && OneOwner(Table(rows)) && EachAccepted(mutations)
      ensures OneOwner(Table(Committed(rows, Parse(mutations), options))) <==> BatchOf(rows, mutations, options).Free()
    {
      var final := Table(Committed(rows, Parse(mutations), options));
      var batch := BatchOf(rows, mutations, options);
      forall id, key
        ensures id in final && key in final[id] <==> batch.Stays(id, key) || batch.Gives(id, key)
      {
        FinalTable(rows, mutations, options, id, key);
      }
      FreeIsUnique(Table(rows), batch, final);
    }

    lemma FreeIsUnique(table: ConsumerTable, batch: Batch, final: ConsumerTable)
      requires OneOwner(table) && batch.table == table
      requires forall id, key :: id in final && key in final[id] <==> batch.Stays(id, key) || batch.Gives(id, key)
      ensures OneOwner(final) <==> batch.Free()
    {
      if batch.Free() {
        forall a, b, key | a in final && b in final && key in final[a] && key in final[b]
          ensures a == b
        {
          assert batch.Stays(a, key) || batch.Gives(a, key);
          assert batch.Stays(b, key) || batch.Gives(b, key);
        }
      } else {
        var id, other, key :| batch.Gives(id, key) && other != id && (batch.Stays(other, key) || batch.Gives(other, key));
        assert id in final && key in final[id] && other in final && key in final[other];
      }
    }

    /** The store refuses nothing exactly when the batch may be committed. */
    lemma RefusesNothing(rows: Rows, mutations: seq<Mutation>, options: BatchOptions)
      requires Sound() && NamedRows(rows) && OneOwner(Table(rows))
      ensures RefusedBy(rows, mutations, options) == {} <==> Acceptable(rows, mutations, options)
    {
      var own := set i | 0 <= i < |mutations| && !Accepts(mutations[i]);
      assert own == {} <==> EachAccepted(mutations) by {
        if own == {} {
          forall i | 0 <= i < |mutations|
            ensures Accepts(mutations[i])
          {
            assert i !in own;
          }
        }
      }
      if EachAccepted(mutations) {
        BatchIsWellFormed(rows, mutations, options);
        AcceptedArePrepared(rows, mutations, options);
        BatchOf(rows, mutations, options).NothingCollides();
        FreeIsOneOwner(rows, mutations, options);
      }
    }

    /** A batch that names no consumer and replaces nothing leaves the consumer table alone. */
    lemma TableUntouched(rows: Rows, parsed: seq<ParsedMutation>, options: BatchOptions)
      requires consumers in buckets
      requires !options.replaceManaged && forall entry :: entry in parsed ==> entry.key.bucket != consumers
      ensures Table(Committed(rows, parsed, options)) == Table(rows)
    {
      LastMutationsMembers(parsed);
      forall id ensures RowKeys(Committed(rows, parsed, options), id) == RowKeys(rows, id) {
        CommittedConsumer(rows, parsed, options, id);
        assert ConsumerKey(id) !in LastMutations(parsed);
      }
      assert forall id :: id in Table(rows) <==> RowKeys(rows, id).Some?;
    }

    lemma CommittedNamed(rows: Rows, parsed: seq<ParsedMutation>, options: BatchOptions)
      requires NamedRows(rows) && forall entry :: entry in parsed ==> entry.key.id != ""
      ensures NamedRows(Committed(rows, parsed, options))
    {
      LastMutationsMembers(parsed);
      forall key | key in Committed(rows, parsed, options) ensures key.id != "" {
        ApplyAllRow(Base(rows, options), parsed, key);
      }
    }

    /** One more mutation: what the parsed batch and the verdict on it become. */
    lemma ParseNext(mutations: seq<Mutation>, i: nat)
      requires i < |mutations|
      ensures var key := decode(mutations[i].key);
              Parse(mutations[..i + 1]) ==
              Parse(mutations[..i]) + (if key.Some? then [ParsedMutation(mutations[i], key.value, i)] else [])
      ensures EachAccepted(mutations[..i + 1]) <==> EachAccepted(mutations[..i]) && Accepts(mutations[i])
    {
      assert mutations[..i + 1][..i] == mutations[..i];
    }

    lemma CredentialsNext(mutations: seq<Mutation>, n: nat)
      requires n < |mutations|
      ensures Credentials(mutations[..n + 1]) ==
              if CredentialsOf(mutations[n]).Some? then Credentials(mutations[..n])[n := CredentialsOf(mutations[n]).value]
              else Credentials(mutations[..n])
    {
      assert forall i :: 0 <= i < n ==> mutations[..n + 1][i] == mutations[..n][i];
    }

    /** Exactly the positions of the mutations among the first ones that fail their own check, in order. */
    ghost predicate RejectedSoFar(mutations: seq<Mutation>, rejected: seq<nat>, n: nat)
      requires n <= |mutations|
    {
      Increasing(rejected) && forall i :: i in rejected <==> 0 <= i < n && !Accepts(mutations[i])
    }

    lemma RejectOneMore(mutations: seq<Mutation>, rejected: seq<nat>, n: nat)
      requires n < |mutations| && RejectedSoFar(mutations, rejected, n)
      ensures RejectedSoFar(mutations, if Accepts(mutations[n]) then rejected else rejected + [n], n + 1)
    {
      forall j | 0 <= j < |rejected|
        ensures rejected[j] < n
      {
        assert rejected[j] in rejected;
      }
    }

    /** A colliding PUT passed its own check. */
    lemma CollisionsAreAccepted(rows: Rows, mutations: seq<Mutation>, options: BatchOptions)
      ensures forall i :: i in BatchOf(rows, mutations, options).Colliding(|Parse(mutations)|) ==> i < |mutations| && Accepts(mutations[i])
    {
      var batch := BatchOf(rows, mutations, options);
      forall i | i in batch.Colliding(|batch.parsed|)
        ensures i < |mutations| && Accepts(mutations[i])
      {
        var m := batch.CollisionWitness(|batch.parsed|, i);
      }
    }

    lemma {:induction false} ParsedEntry(mutations: seq<Mutation>, entry: ParsedMutation)
      ensures entry in Parse(mutations) <==>
                && entry.index < |mutations| && entry.mutation == mutations[entry.index]
                && decode(entry.mutation.key) == Some(entry.key)
    {
      if mutations != [] {
        var n := |mutations| - 1;
        ParsedEntry(mutations[..n], entry);
        var key := decode(mutations[n].key);
        var tail := if key.Some? then [ParsedMutation(mutations[n], key.value, n)] else [];
        assert Parse(mutations) == Parse(mutations[..n]) + tail;
        assert entry in tail <==> entry.index == n && entry.mutation == mutations[n] && key == Some(entry.key);
      }
    }

    lemma {:induction false} ParseIndexed(mutations: seq<Mutation>)
      ensures Indexed(Parse(mutations))
    {
      if mutations != [] {
        var before := mutations[..|mutations| - 1];
        ParseIndexed(before);
        forall entry | entry in Parse(before)
          ensures entry.index < |before|
        {
          ParsedEntry(before, entry);
        }
      }
    }

    lemma ParseMembers(mutations: seq<Mutation>)
      ensures Indexed(Parse(mutations))
      ensures forall entry :: entry in Parse(mutations) ==>
                && entry.index < |mutations| && entry.mutation == mutations[entry.index]
                && decode(entry.mutation.key) == Some(entry.key)
      ensures forall i :: 0 <= i < |mutations| && decode(mutations[i].key).Some? ==>
                ParsedMutation(mutations[i], decode(mutations[i].key).value, i) in Parse(mutations)
    {
      ParseIndexed(mutations);
      forall entry | entry in Parse(mutations)
        ensures && entry.index < |mutations| && entry.mutation == mutations[entry.index] && decode(entry.mutation.key) == Some(entry.key)
      {
        ParsedEntry(mutations, entry);
      }
      forall i | 0 <= i < |mutations| && decode(mutations[i].key).Some?
        ensures ParsedMutation(mutations[i], decode(mutations[i].key).value, i) in Parse(mutations)
      {
        ParsedEntry(mutations, ParsedMutation(mutations[i], decode(mutations[i].key).value, i));
      }
    }
  }

  /** Committing one more mutation writes its row after the others. */
  lemma ApplySent(schema: Schema, rows: Rows, mutations: seq<Mutation>, mutation: Mutation)
    requires schema.decode(mutation.key).Some?
    ensures var before := ApplyAll(rows, schema.Parse(mutations));
            var key := schema.decode(mutation.key).value;
            ApplyAll(rows, schema.Parse(mutations + [mutation])) ==
            if mutation.kind.Put? then before[key := mutation.value] else before - {key}
  {
    var all := mutations + [mutation];
    assert all[..|all| - 1] == mutations;
    var parsed := schema.Parse(all);
    assert parsed[..|parsed| - 1] == schema.Parse(mutations);
  }

  /** The last mutation of a batch that is written to a row, or -1. */
  function LastWriter(schema: Schema, mutations: seq<Mutation>, row: ResourceKey): (pos: int)
    ensures -1 <= pos < |mutations|
    ensures 0 <= pos ==> schema.decode(mutations[pos].key) == Some(row)
    ensures forall i :: pos < i < |mutations| ==> schema.decode(mutations[i].key) != Some(row)
  {
    if mutations == [] then -1
    else if schema.decode(mutations[|mutations| - 1].key) == Some(row) then |mutations| - 1
    else LastWriter(schema, mutations[..|mutations| - 1], row)
  }

  /** A row of a committed batch is as its last writer wants it, or as it was. */
  lemma {:induction false} LastWriterDecides(schema: Schema, mutations: seq<Mutation>, rows: Rows, row: ResourceKey)
    ensures var after := ApplyAll(rows, schema.Parse(mutations));
            var pos := LastWriter(schema, mutations, row);
            if pos == -1 then (row in after <==> row in rows) && (row in rows ==> after[row] == rows[row])
            else if mutations[pos].kind.Put? then row in after && after[row] == mutations[pos].value
            else row !in after
  {
    if mutations != [] {
      var front, last := mutations[..|mutations| - 1], mutations[|mutations| - 1];
      assert forall i :: 0 <= i < |front| ==> front[i] == mutations[i];
      LastWriterDecides(schema, front, rows, row);
      assert front + [last] == mutations;
      if schema.decode(last.key).Some? {
        ApplySent(schema, rows, front, last);
      } else {
        assert schema.Parse(mutations) == schema.Parse(front);
      }
      assert LastWriter(schema, mutations, row) ==
             if schema.decode(last.key) == Some(row) then |front| else LastWriter(schema, front, row);
    }
  }

  /** The mutation at a position names the row, and no later one does. */
  ghost predicate HasLastWord(schema: Schema, mutations: seq<Mutation>, i: nat, row: ResourceKey) {
    && i < |mutations| && schema.decode(mutations[i].key) == Some(row)
    && forall j :: i < j < |mutations| ==> schema.decode(mutations[j].key) != Some(row)
  }

  ghost predicate Names(schema: Schema, mutations: seq<Mutation>, row: ResourceKey) {
    exists i :: 0 <= i < |mutations| && schema.decode(mutations[i].key) == Some(row)
  }

  /**
   * Rows follow a batch: the last word on each row it names, the other rows as they were, except
   * that a replacement drops those of managed buckets which it does not preserve.
   */
  ghost predicate Follow(schema: Schema, before: Rows, mutations: seq<Mutation>, options: BatchOptions, after: Rows) {
    && (forall i: nat, row :: HasLastWord(schema, mutations, i, row) ==>
          if mutations[i].kind.Put? then row in after && after[row] == mutations[i].value else row !in after)
    && (forall row :: !Names(schema, mutations, row) ==>
          && (row in after <==> row in before && (options.replaceManaged && row.bucket in schema.buckets ==> row in options.preserve))
          && (row in after ==> after[row] == before[row]))
  }

  lemma CommittedFollows(schema: Schema, rows: Rows, mutations: seq<Mutation>, options: BatchOptions)
    ensures Follow(schema, rows, mutations, options, schema.Committed(rows, schema.Parse(mutations), options))
  {
    var after := schema.Committed(rows, schema.Parse(mutations), options);
    forall i: nat, row | HasLastWord(schema, mutations, i, row)
      ensures if mutations[i].kind.Put? then row in after && after[row] == mutations[i].value else row !in after
    {
      LastWriterDecides(schema, mutations, schema.Base(rows, options), row);
      assert LastWriter(schema, mutations, row) == i;
    }
    forall row | !Names(schema, mutations, row)
      ensures && (row in after <==> row in rows && (options.replaceManaged && row.bucket in schema.buckets ==> row in options.preserve))
              && (row in after ==> after[row] == rows[row])
    {
      LastWriterDecides(schema, mutations, schema.Base(rows, options), row);
    }
  }

  /** The batch replaces everything or names a row of one of the buckets. */
  ghost predicate Concerns(schema: Schema, mutations: seq<Mutation>, options: BatchOptions, buckets: set<string>) {
    options.replaceManaged || exists row: ResourceKey :: row.bucket in buckets && Names(schema, mutations, row)
  }

  lemma TouchesMeaning(schema: Schema, mutations: seq<Mutation>, options: BatchOptions, buckets: set<string>)
    ensures Store.Touches(schema.Parse(mutations), options, buckets) <==> Concerns(schema, mutations, options, buckets)
  {
    schema.ParseMembers(mutations);
    if entry :| entry in schema.Parse(mutations) && entry.key.bucket in buckets {
      assert Names(schema, mutations, entry.key);
    }
  }

  /** A consumer's stored row parses and gives it this lookup key. */
  ghost predicate HasKey(schema: Schema, rows: Rows, id: string, key: string) {
    var row := ResourceKey(schema.consumers, id);
    row in rows && schema.lookupKeys(id, rows[row]).Some? && key in schema.lookupKeys(id, rows[row]).value
  }

  lemma TableMeaning(schema: Schema, rows: Rows, id: string, key: string)
    ensures HasKey(schema, rows, id, key) <==> id in schema.Table(rows) && key in schema.Table(rows)[id]
  {
  }

  lemma OneOwnerMeaning(schema: Schema, rows: Rows)
    ensures OneOwner(schema.Table(rows)) <==>
            forall a, b, key :: HasKey(schema, rows, a, key) && HasKey(schema, rows, b, key) ==> a == b
  {
    forall id, key {
      TableMeaning(schema, rows, id, key);
    }
  }

  /** The mutation at a position is a PUT that gives a consumer this lookup key. */
  ghost predicate PutsKey(schema: Schema, mutation: Mutation, id: string, key: string) {
    && mutation.kind.Put? && schema.decode(mutation.key) == Some(ResourceKey(schema.consumers, id))
    && schema.lookupKeys(id, mutation.value).Some? && key in schema.lookupKeys(id, mutation.value).value
  }

  /** Another consumer has the lookup key in its stored row, or is given it by a PUT of the batch. */
  ghost predicate IsContested(schema: Schema, rows: Rows, mutations: seq<Mutation>, id: string, key: string) {
    exists other :: other != id && (HasKey(schema, rows, other, key) || PutsKeyTo(schema, mutations, other, key))
  }

  ghost predicate PutsKeyTo(schema: Schema, mutations: seq<Mutation>, id: string, key: string) {
    exists j :: 0 <= j < |mutations| && PutsKey(schema, mutations[j], id, key)
  }

  /** A deciding entry that gives a key is such a PUT. */
  lemma ClaimIsPut(schema: Schema, rows: Rows, mutations: seq<Mutation>, options: BatchOptions, entry: ParsedMutation, key: string)
    requires var batch := schema.BatchOf(rows, mutations, options);
      entry in batch.parsed && batch.Decides(entry) && key in batch.credentials[entry.index]
    ensures entry.index < |mutations| && PutsKey(schema, mutations[entry.index], entry.key.id, key)
  {
    schema.EntryCredentials(mutations, entry);
    schema.ParsedEntry(mutations, entry);
    assert entry.key == ResourceKey(schema.consumers, entry.key.id);
  }

  lemma ClaimantContests(schema: Schema, rows: Rows, mutations: seq<Mutation>, options: BatchOptions, n: nat, refused: set<nat>, id: string, other: string, key: string)
    requires n <= |schema.Parse(mutations)| && other != id
    requires schema.BatchOf(rows, mutations, options).Claimant(n, refused, other, key)
    ensures IsContested(schema, rows, mutations, id, key)
  {
    var batch := schema.BatchOf(rows, mutations, options);
    if batch.Keeps(other, key) {
      TableMeaning(schema, rows, other, key);
    } else {
      var i :| 0 <= i < n && batch.Decides(batch.parsed[i]) && batch.parsed[i].key.id == other && key in batch.credentials[batch.parsed[i].index];
      ClaimIsPut(schema, rows, mutations, options, batch.parsed[i], key);
      assert PutsKeyTo(schema, mutations, other, key);
    }
  }

  /** A position is refused for a reason: it is not valid by itself, or asks for a key that another consumer has or is given. */
  ghost predicate IsJustified(schema: Schema, rows: Rows, mutations: seq<Mutation>, i: nat) {
    && i < |mutations|
    && (schema.Accepts(mutations[i]) ==>
          exists id, key :: PutsKey(schema, mutations[i], id, key) && IsContested(schema, rows, mutations, id, key))
  }

  lemma RefusedMeaning(schema: Schema, rows: Rows, mutations: seq<Mutation>, options: BatchOptions, i: nat)
    requires i in schema.RefusedBy(rows, mutations, options)
    ensures IsJustified(schema, rows, mutations, i)
  {
    var batch := schema.BatchOf(rows, mutations, options);
    schema.CollisionsAreAccepted(rows, mutations, options);
    if schema.Accepts(mutations[i]) {
      var m := batch.CollisionWitness(|batch.parsed|, i);
      var entry := batch.parsed[m];
      var key, other :| key in batch.credentials[i] && other != entry.key.id && batch.Claimant(m, batch.Colliding(m), other, key);
      ClaimIsPut(schema, rows, mutations, options, entry, key);
      ClaimantContests(schema, rows, mutations, options, m, batch.Colliding(m), entry.key.id, other, key);
      assert PutsKey(schema, mutations[i], entry.key.id, key) && IsContested(schema, rows, mutations, entry.key.id, key);
    }
  }

  /** An operation the store does not know, under a key that decodes. */
  ghost predicate IsUnknown(schema: Schema, mutation: Mutation) {
    schema.decode(mutation.key).Some? && mutation.kind.Unsupported?
  }

  lemma SupportedMeaning(schema: Schema, mutations: seq<Mutation>)
    ensures schema.Supported(mutations) <==> forall i :: 0 <= i < |mutations| ==> !IsUnknown(schema, mutations[i])
  {
    schema.ParseMembers(mutations);
    if i :| 0 <= i < |mutations| && IsUnknown(schema, mutations[i]) {
      assert ParsedMutation(mutations[i], schema.decode(mutations[i].key).value, i) in schema.Parse(mutations);
    }
  }

  /** The key index is the inverse of the consumer table. */
  ghost predicate Inverse(owners: map<string, string>, table: ConsumerTable) {
    && (forall key :: key in owners ==> owners[key] in table && key in table[owners[key]])
    && (forall id, key :: id in table && key in table[id] ==> key in owners && owners[key] == id)
  }

  lemma InverseHasOneOwner(owners: map<string, string>, table: ConsumerTable)
    requires Inverse(owners, table)
    ensures OneOwner(table)
  {
    forall a, b, key | a in table && b in table && key in table[a] && key in table[b]
      ensures a == b
    {
      assert owners[key] == a;
    }
  }

  ghost predicate NamedRows(rows: Rows) {
    forall key :: key in rows ==> key.id != ""
  }

  datatype Generations = Generations(consumers: nat, secrets: nat, config: nat, protos: nat)

  class Store {
    const schema: Schema
    var rows: Rows
    var consumerToKeys: ConsumerTable
    var consumerKV: map<string, string>
    var consumerGeneration: nat
    var secretGeneration: nat
    var configGeneration: nat
    var protosGeneration: nat

    /** The consumer indexes are those of the committed rows, and every lookup key has one owner. */
    ghost predicate Valid()
      reads this
    {
      && consumerToKeys == schema.Table(rows)
      && OneOwner(consumerToKeys)
      && Inverse(consumerKV, consumerToKeys)
      && NamedRows(rows)
    }

    constructor (schema: Schema, rows: Rows)
      ensures this.schema == schema && this.rows == rows
    {
      this.schema, this.rows := schema, rows;
      consumerToKeys, consumerKV := map[], map[];
      consumerGeneration, secretGeneration, configGeneration, protosGeneration := 0, 0, 0, 0;
    }

    /** Opens a store on the rows of its database; it refuses rows in which two consumers share a lookup key. */
    static method Open(schema: Schema, rows: Rows) returns (storage: Store?)
      requires NamedRows(rows)
      ensures storage != null <==> OneOwner(schema.Table(rows))
      ensures storage != null ==> fresh(storage) && storage.Valid() && storage.schema == schema && storage.rows == rows
    {
      var created := new Store(schema, rows);
      var ok := created.RebuildConsumerIndexes();
      storage := if ok then created else null;
    }

    /** Enters one consumer's lookup keys in the key index, unless another consumer has one of them. */
    static method RegisterKeys(owners: map<string, string>, ghost table: ConsumerTable, id: string, keys: seq<string>)
      returns (ok: bool, owners': map<string, string>)
      requires Inverse(owners, table) && id !in table && "" !in table
      ensures ok ==> Inverse(owners', table[id := keys])
      ensures ok <==> forall other, key :: other in table && key in table[other] ==> key !in keys
    {
      owners' := owners;
      for i := 0 to |keys|
        invariant forall key :: key in owners' ==>
                    if key in keys[..i] then owners'[key] == id else key in owners && owners'[key] == owners[key]
        invariant forall key :: key in owners || key in keys[..i] ==> key in owners'
        invariant forall j :: 0 <= j < i ==> keys[j] !in owners
      {
        var key := keys[i];
        if key in owners' && owners'[key] != "" && owners'[key] != id {
          assert key in keys && key in owners && key in table[owners[key]];
          return false, owners';
        }
        assert keys[..i + 1] == keys[..i] + [key];
        owners' := owners'[key := id];
      }
      assert keys[..|keys|] == keys;
      ok := true;
    }

    /**
     * Rebuilds the consumer indexes from the committed rows. It fails exactly when two rows
     * register the same lookup key, and then publishes nothing.
     */
    method RebuildConsumerIndexes() returns (ok: bool)
      requires NamedRows(rows)
      modifies this`consumerToKeys, this`consumerKV, this`consumerGeneration
      ensures ok <==> OneOwner(schema.Table(rows))
      ensures ok ==> Valid() && consumerGeneration == old(consumerGeneration) + 1
      ensures !ok ==> consumerToKeys == old(consumerToKeys) && consumerKV == old(consumerKV)
                      && consumerGeneration == old(consumerGeneration)
    {
      var toKeys, owners;
      ok, toKeys, owners := CollectConsumers(schema, rows);
      if ok {
        consumerToKeys := toKeys;
        consumerKV := owners;
        consumerGeneration := consumerGeneration + 1;
      }
    }

    /** Parses every consumer row and registers its lookup keys, up to the first key that has an owner. */
    static method CollectConsumers(schema: Schema, rows: Rows) returns (ok: bool, toKeys: ConsumerTable, owners: map<string, string>)
      requires NamedRows(rows)
      ensures ok <==> OneOwner(schema.Table(rows))
      ensures ok ==> toKeys == schema.Table(rows) && Inverse(owners, toKeys)
    {
      ghost var table := schema.Table(rows);
      toKeys, owners := map[], map[];
      var pending := schema.ConsumerIds(rows);
      while pending != {}
        invariant pending <= schema.ConsumerIds(rows)
        invariant forall id :: id in toKeys <==> id in table && id !in pending
        invariant forall id :: id in toKeys ==> toKeys[id] == table[id]
        invariant Inverse(owners, toKeys)
        decreases |pending|
      {
        var id :| id in pending;
        pending := pending - {id};
        var parsed := schema.lookupKeys(id, rows[schema.ConsumerKey(id)]);
        if parsed.Some? {
          var registered;
          registered, owners := RegisterKeys(owners, toKeys, id, parsed.value);
          if !registered {
            ghost var other, key :| other in toKeys && key in toKeys[other] && key in parsed.value;
            assert key in table[other] && key in table[id];
            return false, toKeys, owners;
          }
          toKeys := toKeys[id := parsed.value];
        }
      }
      assert toKeys == table;
      InverseHasOneOwner(owners, table);
      ok := true;
    }

    /** The owners of the lookup keys that current consumers keep. */
    static method KeptOwners(batch: Batch) returns (owners: map<string, string>)
      requires batch.WellFormed()
      ensures batch.Tracks(owners, 0)
    {
      owners := map[];
      var pending := batch.table.Keys;
      while pending != {}
        invariant pending <= batch.table.Keys
        invariant forall id, key :: batch.Keeps(id, key) && id !in pending <==> key in owners && owners[key] == id
        decreases |pending|
      {
        var id :| id in pending;
        pending := pending - {id};
        var kept := KeptKeys(batch, id);
        owners := owners + (map key | key in kept :: id);
      }
    }

    /** The lookup keys one consumer keeps: all, those its new credentials retain, or none. */
    static method KeptKeys(batch: Batch, id: string) returns (kept: set<string>)
      requires id in batch.table
      ensures forall key :: key in kept <==> batch.Keeps(id, key)
    {
      var keys := batch.table[id];
      kept := {};
      if batch.RowOf(id) in batch.last {
        var entry := batch.last[batch.RowOf(id)];
        if entry.mutation.kind.Put? {
          kept := set key | key in keys && (entry.index in batch.credentials ==> key in batch.credentials[entry.index]);
        }
      } else if batch.options.replaceManaged ==> batch.RowOf(id) in batch.options.preserve {
        kept := set key | key in keys;
      }
    }

    /** Whether another consumer owns one of the lookup keys by now. */
    static method FindCollision(owners: map<string, string>, id: string, keys: seq<string>) returns (collides: bool)
      ensures collides <==> exists key :: key in keys && key in owners && owners[key] != "" && owners[key] != id
    {
      for i := 0 to |keys|
        invariant forall j :: 0 <= j < i ==> !(keys[j] in owners && owners[keys[j]] != "" && owners[keys[j]] != id)
      {
        if keys[i] in owners && owners[keys[i]] != "" && owners[keys[i]] != id {
          return true;
        }
      }
      return false;
    }

    /** Makes a consumer the owner of its lookup keys. */
    static method ClaimKeys(owners: map<string, string>, id: string, keys: seq<string>) returns (claimed: map<string, string>)
      ensures claimed == owners + (map key | key in keys :: id)
    {
      claimed := owners;
      for i := 0 to |keys|
        invariant claimed == owners + (map key | key in keys[..i] :: id)
      {
        claimed := claimed[keys[i] := id];
        assert keys[..i + 1] == keys[..i] + [keys[i]];
      }
      assert keys[..|keys|] == keys;
    }

    /** Refuses, in batch order, exactly the deciding PUTs that collide with the owners known by then. */
    static method RejectCollisions(batch: Batch, kept: map<string, string>) returns (rejected: seq<nat>)
      requires batch.WellFormed() && batch.Tracks(kept, 0)
      ensures forall i :: i in rejected <==> i in batch.Colliding(|batch.parsed|)
      ensures Increasing(rejected)
    {
      var owners := kept;
      rejected := [];
      for n := 0 to |batch.parsed|
        invariant batch.Tracks(owners, n) && batch.Refused(rejected, n)
      {
        var entry := batch.parsed[n];
        batch.TrackNext(owners, n);
        batch.DecidesByIndex(n);
        batch.RefusedNext(rejected, n);
        if entry.key.bucket == batch.consumers && entry.mutation.kind.Put? && batch.last[entry.key].index == entry.index &&
           entry.index in batch.credentials {
          batch.CollisionShows(owners, n, entry);
          var collides := FindCollision(owners, entry.key.id, batch.credentials[entry.index]);
          if collides {
            rejected := rejected + [entry.index];
          } else {
            owners := ClaimKeys(owners, entry.key.id, batch.credentials[entry.index]);
          }
        }
      }
    }

    /** Refuses exactly the consumer PUTs whose lookup keys another consumer has by then. */
    method ValidateLookupKeys(mutations: seq<Mutation>, parsed: seq<ParsedMutation>, snapshots: map<nat, seq<string>>, options: BatchOptions)
      returns (rejected: seq<nat>)
      requires Valid() && schema.Sound()
      requires parsed == schema.Parse(mutations) && snapshots == schema.Credentials(mutations)
      ensures forall i :: i in rejected <==> i in schema.BatchOf(rows, mutations, options).Colliding(|parsed|)
      ensures Increasing(rejected)
    {
      schema.BatchIsWellFormed(rows, mutations, options);
      var batch := Batch(schema.consumers, consumerToKeys, parsed, LastMutations(parsed), snapshots, options);
      var kept := KeptOwners(batch);
      rejected := RejectCollisions(batch, kept);
    }

    /** The consumer that a lookup key belongs to. */
    method GetConsumerName(key: string) returns (id: Option<string>)
      requires Valid()
      ensures id.Some? ==> HasKey(schema, rows, id.value, key)
      ensures id.None? ==> forall other :: !HasKey(schema, rows, other, key)
    {
      forall other {
        TableMeaning(schema, rows, other, key);
      }
      id := if key in consumerKV then Some(consumerKV[key]) else None;
    }

    /** Whether a batch replaces everything or touches one of some buckets. */
    static predicate Touches(parsed: seq<ParsedMutation>, options: BatchOptions, buckets: set<string>) {
      options.replaceManaged || exists entry :: entry in parsed && entry.key.bucket in buckets
    }

    /** Checks one mutation whose key decodes, and prepares the credentials of a consumer. */
    method CheckMutation(mutation: Mutation, key: ResourceKey) returns (accepted: bool, credentials: Option<seq<string>>)
      requires schema.decode(mutation.key) == Some(key)
      ensures accepted <==> schema.Accepts(mutation)
      ensures credentials == schema.CredentialsOf(mutation)
    {
      accepted, credentials := true, None;
      if mutation.kind.Put? {
        if schema.IsConsumer(key) {
          credentials := schema.lookupKeys(key.id, mutation.value);
          accepted := credentials.Some?;
        } else if !schema.valid(key, mutation.value) {
          accepted := false;
        }
      }
    }

    /** Decodes and checks the mutations of a batch one by one; stops at an unsupported event type. */
    method ParseBatch(mutations: seq<Mutation>)
      returns (supported: bool, parsed: seq<ParsedMutation>, snapshots: map<nat, seq<string>>, rejected: seq<nat>)
      ensures supported <==> schema.Supported(mutations)
      ensures supported ==> parsed == schema.Parse(mutations) && snapshots == schema.Credentials(mutations)
      ensures supported ==> forall i :: i in rejected <==> 0 <= i < |mutations| && !schema.Accepts(mutations[i])
      ensures Increasing(rejected)
    {
      supported, parsed, snapshots, rejected := true, [], map[], [];
      for n := 0 to |mutations|
        invariant parsed == schema.Parse(mutations[..n]) && snapshots == schema.Credentials(mutations[..n])
        invariant schema.RejectedSoFar(mutations, rejected, n)
        invariant forall entry :: entry in parsed ==> !entry.mutation.kind.Unsupported?
      {
        schema.ParseNext(mutations, n);
        schema.CredentialsNext(mutations, n);
        schema.RejectOneMore(mutations, rejected, n);
        var mutation := mutations[n];
        var key := schema.decode(mutation.key);
        if key.None? {
          rejected := rejected + [n];
        } else if mutation.kind.Unsupported? {
          schema.ParsedEntry(mutations, ParsedMutation(mutation, key.value, n));
          return false, parsed, snapshots, rejected;
        } else {
          parsed := parsed + [ParsedMutation(mutation, key.value, n)];
          var accepted, credentials := CheckMutation(mutation, key.value);
          if credentials.Some? {
            snapshots := snapshots[n := credentials.value];
          }
          if !accepted {
            rejected := rejected + [n];
          }
        }
      }
      assert mutations[..|mutations|] == mutations;
    }

    /** Validates a whole batch: exactly the refused positions, each once. */
    method ValidateBatch(mutations: seq<Mutation>, options: BatchOptions)
      returns (supported: bool, parsed: seq<ParsedMutation>, rejected: seq<nat>)
      requires Valid() && schema.Sound()
      ensures supported <==> schema.Supported(mutations)
      ensures supported ==> parsed == schema.Parse(mutations)
      ensures supported ==> forall i :: i in rejected <==> i in schema.RefusedBy(rows, mutations, options)
      ensures supported ==> (rejected == [] <==> schema.Acceptable(rows, mutations, options))
      ensures supported ==> forall i, j :: 0 <= i < j < |rejected| ==> rejected[i] != rejected[j]
    {
      var snapshots;
      supported, parsed, snapshots, rejected := ParseBatch(mutations);
      if supported {
        var collisions := ValidateLookupKeys(mutations, parsed, snapshots, options);
        schema.CollisionsAreAccepted(rows, mutations, options);
        schema.RefusesNothing(rows, mutations, options);
        ghost var own := rejected;
        rejected := rejected + collisions;
        NoneTwice(own, collisions, mutations, options);
        NoneRefused(rejected, schema.RefusedBy(rows, mutations, options));
      }
    }

    static lemma NoneRefused(rejected: seq<nat>, refused: set<nat>)
      requires forall i :: i in rejected <==> i in refused
      ensures rejected == [] <==> refused == {}
    {
      assert rejected != [] ==> rejected[0] in rejected;
    }

    lemma NoneTwice(own: seq<nat>, collisions: seq<nat>, mutations: seq<Mutation>, options: BatchOptions)
      requires Increasing(own) && Increasing(collisions)
      requires forall i :: i in own ==> i < |mutations| && !schema.Accepts(mutations[i])
      requires forall i :: i in collisions ==> i < |mutations| && schema.Accepts(mutations[i])
      ensures forall i, j :: 0 <= i < j < |own + collisions| ==> (own + collisions)[i] != (own + collisions)[j]
    {
      forall i, j | 0 <= i < |own| && 0 <= j < |collisions|
        ensures own[i] != collisions[j]
      {
        assert own[i] in own && collisions[j] in collisions;
      }
    }

    /** Writes a validated batch, then publishes it: indexes first, generation counters after them. */
    method Commit(parsed: seq<ParsedMutation>, options: BatchOptions) returns (rebuilt: bool)
      requires Valid() && schema.consumers in schema.buckets
      requires forall entry :: entry in parsed ==> entry.key.id != ""
      requires OneOwner(schema.Table(schema.Committed(rows, parsed, options)))
      modifies this
      ensures rebuilt && Valid()
      ensures Published(old(rows), parsed, options, old(Counters()))
    {
      var touchesConsumers := Touches(parsed, options, {schema.consumers});
      schema.CommittedNamed(rows, parsed, options);
      if !touchesConsumers {
        schema.TableUntouched(rows, parsed, options);
      }
      rows := schema.Committed(rows, parsed, options);
      rebuilt := true;
      if touchesConsumers {
        rebuilt := RebuildConsumerIndexes();
        if !rebuilt {
          return;
        }
      }
      BumpGenerations(parsed, options);
    }

    method BumpGenerations(parsed: seq<ParsedMutation>, options: BatchOptions)
      modifies this`secretGeneration, this`configGeneration, this`protosGeneration
      ensures secretGeneration == old(secretGeneration) + (if Touches(parsed, options, {schema.secrets}) then 1 else 0)
      ensures configGeneration == old(configGeneration) + (if Touches(parsed, options, schema.httpBuckets) then 1 else 0)
      ensures protosGeneration == old(protosGeneration) + (if Touches(parsed, options, {schema.protos}) then 1 else 0)
    {
      if Touches(parsed, options, {schema.secrets}) {
        secretGeneration := secretGeneration + 1;
      }
      if Touches(parsed, options, schema.httpBuckets) {
        configGeneration := configGeneration + 1;
      }
      if Touches(parsed, options, {schema.protos}) {
        protosGeneration := protosGeneration + 1;
      }
    }

    function Counters(): Generations
      reads this
    {
      Generations(consumerGeneration, secretGeneration, configGeneration, protosGeneration)
    }

    /** The batch is in the rows, and counted in the generations of the buckets it touches. */
    ghost predicate Published(before: Rows, parsed: seq<ParsedMutation>, options: BatchOptions, was: Generations)
      reads this
    {
      && rows == schema.Committed(before, parsed, options)
      && consumerGeneration == was.consumers + (if Touches(parsed, options, {schema.consumers}) then 1 else 0)
      && secretGeneration == was.secrets + (if Touches(parsed, options, {schema.secrets}) then 1 else 0)
      && configGeneration == was.config + (if Touches(parsed, options, schema.httpBuckets) then 1 else 0)
      && protosGeneration == was.protos + (if Touches(parsed, options, {schema.protos}) then 1 else 0)
    }

    /**
     * Applies one batch. `commitFails` and `hookFails` are the environment's choices: the database
     * refusing the transaction, and a publication hook refusing the acknowledgement.
     */
    method ProcessMutations(mutations: seq<Mutation>, options: BatchOptions, commitFails: bool, hookFails: bool)
      returns (outcome: Outcome)
      requires Valid() && schema.Sound()
      modifies this
      ensures Valid()
      // validation is exact, so the index rebuild never fails
      ensures !outcome.IndexFailed?
      ensures outcome.UnsupportedType? <==> !schema.Supported(mutations)
      ensures outcome.Invalid? <==> schema.Supported(mutations) && !schema.Acceptable(old(rows), mutations, options)
      ensures outcome.Invalid? ==> RefusedExactly(outcome.rejected, schema.RefusedBy(old(rows), mutations, options))
      ensures outcome.CommitFailed? <==> schema.Supported(mutations) && schema.Acceptable(old(rows), mutations, options) && commitFails
      ensures outcome.HookFailed? <==> schema.Supported(mutations) && schema.Acceptable(old(rows), mutations, options) && !commitFails && hookFails
      // the batch is committed whole, and counted in the generations of the buckets it touches, or not at all
      ensures outcome.Applied? || outcome.HookFailed? ==>
                Published(old(rows), schema.Parse(mutations), options, old(Counters()))
      ensures !(outcome.Applied? || outcome.HookFailed?) ==> unchanged(this)
      // the same in terms of keys, values and rows
      ensures outcome.UnsupportedType? <==> exists i :: 0 <= i < |mutations| && IsUnknown(schema, mutations[i])
      ensures outcome.Applied? ==> forall i :: 0 <= i < |mutations| ==>
                && schema.decode(mutations[i].key).Some?
                && (mutations[i].kind.Put? ==>
                      var row := schema.decode(mutations[i].key).value;
                      if row.bucket == schema.consumers then schema.lookupKeys(row.id, mutations[i].value).Some?
                      else schema.valid(row, mutations[i].value))
      ensures outcome.Invalid? ==> forall i :: 0 <= i < |mutations| && i !in outcome.rejected ==>
                && schema.decode(mutations[i].key).Some?
                && (mutations[i].kind.Put? ==>
                      var row := schema.decode(mutations[i].key).value;
                      if row.bucket == schema.consumers then schema.lookupKeys(row.id, mutations[i].value).Some?
                      else schema.valid(row, mutations[i].value))
      ensures outcome.Invalid? ==> forall i :: i in outcome.rejected ==> IsJustified(schema, old(rows), mutations, i)
      ensures outcome.Applied? ==> Follow(schema, old(rows), mutations, options, rows)
      ensures forall a, b, key :: HasKey(schema, rows, a, key) && HasKey(schema, rows, b, key) ==> a == b
      ensures outcome.Applied? ==>
                && consumerGeneration == old(consumerGeneration) + (if Concerns(schema, mutations, options, {schema.consumers}) then 1 else 0)
                && secretGeneration == old(secretGeneration) + (if Concerns(schema, mutations, options, {schema.secrets}) then 1 else 0)
                && configGeneration == old(configGeneration) + (if Concerns(schema, mutations, options, schema.httpBuckets) then 1 else 0)
                && protosGeneration == old(protosGeneration) + (if Concerns(schema, mutations, options, {schema.protos}) then 1 else 0)
    {
      SupportedMeaning(schema, mutations);
      OneOwnerMeaning(schema, rows);
      var supported, parsed, rejected := ValidateBatch(mutations, options);
      if !supported {
        return UnsupportedType;
      }
      if rejected != [] {
        forall i | i in rejected
          ensures IsJustified(schema, rows, mutations, i)
        {
          RefusedMeaning(schema, rows, mutations, options, i);
        }
        return Invalid(rejected);
      }
      if commitFails {
        return CommitFailed;
      }
      schema.ParseMembers(mutations);
      CommittedFollows(schema, rows, mutations, options);
      TouchesMeaning(schema, mutations, options, {schema.consumers});
      TouchesMeaning(schema, mutations, options, {schema.secrets});
      TouchesMeaning(schema, mutations, options, schema.httpBuckets);
      TouchesMeaning(schema, mutations, options, {schema.protos});
      var rebuilt := Commit(parsed, options);
      OneOwnerMeaning(schema, rows);
      if !rebuilt {
        return IndexFailed;
      }
      outcome := if hookFails then HookFailed else Applied;
    }

    /** Queues one batch and waits for its result, unless the sender's context ends first. */
    method Submit(mutations: seq<Mutation>, options: BatchOptions, delivery: Delivery) returns (result: SendResult)
      requires Valid() && schema.Sound()
      modifies this
      ensures Valid()
      // a sender that waits learns the outcome: applied exactly if acceptable and nothing fails, else which positions were refused
      ensures result.Answer? <==> delivery.Delivered?
      ensures result.Answer? ==> !result.outcome.IndexFailed?
      ensures result.Answer? ==>
                (result.outcome.Applied? <==> schema.Supported(mutations) && schema.Acceptable(old(rows), mutations, options)
                                              && !delivery.commitFails && !delivery.hookFails)
      ensures result.Answer? ==> (result.outcome.Invalid? <==> schema.Supported(mutations) && !schema.Acceptable(old(rows), mutations, options))
      ensures result.Answer? && result.outcome.Applied? ==> rows == schema.Committed(old(rows), schema.Parse(mutations), options)
      ensures result.Answer? && result.outcome.Invalid? ==>
                RefusedExactly(result.outcome.rejected, schema.RefusedBy(old(rows), mutations, options)) && rows == old(rows)
    {
      match delivery
      case Delivered(commitFails, hookFails) =>
        var outcome := ProcessMutations(mutations, options, commitFails, hookFails);
        result := Answer(outcome);
      case GivenUp(processed, commitFails, hookFails) =>
        if processed {
          var _ := ProcessMutations(mutations, options, commitFails, hookFails);
        }
        result := ContextDone;
    }
  }

  /** What the environment makes of one batch queued for the store: processed, or given up by its sender. */
  datatype Delivery =
    | Delivered(commitFails: bool, hookFails: bool)
    | GivenUp(processed: bool, commitFails: bool, hookFails: bool)

  /** What the sender of a batch learns. */
  datatype SendResult = Answer(outcome: Outcome) | ContextDone

  /** A validation error names exactly the refused positions, each of them once, and at least one. */
  ghost predicate RefusedExactly(rejected: seq<nat>, refused: set<nat>) {
    && rejected != []
    && (forall i :: i in rejected <==> i in refused)
    && (forall i, j :: 0 <= i < j < |rejected| ==> rejected[i] != rejected[j])
  }
}
