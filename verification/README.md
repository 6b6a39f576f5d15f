# A verified model of apisix-go

This project models, in Dafny, the parts of the apisix-go data plane whose correctness is about
whole runs or about all inputs, and proves what the gateway needs of them.

- **Configuration replication.** `keys.dfy` holds the two decoders of configuration keys,
  `store.dfy` the store that validates, commits and indexes batches, `etcd.dfy` etcd as a growing
  history of revisions and the client that follows it, and `standalone.dfy` the reload of a
  configuration file. The main results are that the store mirrors etcd after every successful
  apply of every run, that consumer-key validation accepts a batch exactly when the committed
  table would have one owner per key and refuses exactly the changes that collide, and that a
  file reload ends with the store equal to the snapshot it settled on.
- **Configuration snapshots.** `snapshot.dfy` interleaves lock-free readers of the cached snapshot
  with the store's event processor.
- **Route generations.** `lifecycle.dfy` is the lock-free count with a retired bit, the drain
  channel and the hijacked connections, one step per atomic operation.
- **Dispatch.** `patterns.dfy` and `dispatch.dfy` hold the nested index over hosts, paths and
  methods, proved to answer what a linear scan over the registered routes answers.
  `ordering.dfy` has the sorted lists it keeps, `basics.dfy` what all modules share.
- **Upstream selection.** `health.dfy` has passive counters and the health-aware balancer,
  `probes.dfy` active probes racing with them, `balance.dfy` priority groups and a request's
  selections, `retry.dfy` the transport's retry loop.
- **Shared resources.** `clusters.dfy` is the cluster registry, `clients.dfy` the registry of
  plugin clients with its two levels of locks.

Code that changes things step by step is modelled as classes and methods with loops, each proved
against a specification function or predicate. Protocols between goroutines are state machines:
a step is one atomic operation, or one critical section that nothing can interrupt, and a theorem
quantifies over every run. `dafny verify dfyconfig.toml` checks everything.

What the proofs brought to light about the code:

- The etcd keys `<prefix>plugins` and `<prefix>plugins/plugins` name one resource
  (`EtcdClient.PluginListSpellings`). In every run, with neither in quarantine, the store mirrors
  both exactly when etcd has the same under both, and one of them exactly when it was applied last
  or etcd has the same under both (`EtcdReplica.AliasedKeysMirrored`). Setting and removing the
  second spelling deletes the plugin list while etcd still has it (`EtcdReplica.TwinRemovesRow`).
- Under an etcd prefix whose last segment is `secrets` the store files resources elsewhere than
  the etcd client names them; `Keys.Codec.AgreementExact` says for which prefixes this happens.
- The etcd client retries a partly rejected batch once. The pruned batch can be rejected again,
  and then the whole apply fails (`EtcdClient.RetryCanBeRejected`). This happens exactly when a
  change that was not rejected asks for a lookup key in the stored row of a consumer whose change
  was (`EtcdClient.RetrySucceedsExactly`). The file watcher repeats its offer and always ends with
  a reload, unless a delivery fails.
- Two goroutines can hold different clients of one key at a time: one that waited for an entry
  while its creation failed makes a client of the unregistered entry (`SharedClients.SecondClient`).
  Without a failed creation they never do (`SharedClients.KeyIsShared`).
- A standalone id with slashes can address a row of another bucket
  (`Keys.Codec.SlashedIdCrossesBuckets`); `Keys.Codec.StandaloneRoundTrip` says which ids are safe.
- For a request host that is itself spelled `*.suffix`, the scan ranks a route by name where the
  index ranks it by wildcard. The order of routes is the same all the same, so the dispatcher
  needs no condition on the request's host (`Dispatch.RanksOrderAlike`).

## Model

| member | source | states |
|---|---|---|
| Keys.GatewayIsValid | pkg/etcd/watcher.go:282-290 | the gateway's managed bucket names are the non-empty, slash-free, distinct names every key lemma relies on |
| Keys.SplitParts | pkg/store/store.go:760-791 | splitting a key and joining the parts gives the key back, and no part holds a slash |
| Keys.CanonicalExactly | pkg/etcd/watcher.go:30-36 | a canonical prefix has one slash on either side of its name, however many it was written with |
| Keys.PrefixExactly | pkg/etcd/watcher.go:250-255 | a prefix that ends with a slash is used as it is, any other in its canonical form |
| Keys.SegmentsBelowPrefix | pkg/etcd/watcher.go:30-36 | the segments of a key are those of its prefix followed by those of the relative part, for any prefix after canonicalisation |
| Keys.Codec.ManagedSegments | pkg/etcd/watcher.go:250-280 | every key the etcd client accepts is its prefix and one to three non-empty segments |
| Keys.Codec.ManagedExactly | pkg/etcd/watcher.go:250-280 | which key names which resource, for every prefix and key: the plugin list, prefix, bucket and a single segment, or prefix, secrets, manager and name |
| Keys.Codec.EveryResourceHasAKey | pkg/etcd/watcher.go:250-280 | for every prefix each resource that the store can name, secrets included, has a key that the etcd client names as it |
| Keys.Codec.DecodersAgree | pkg/etcd/watcher.go:250-297 | for every prefix not ending in the secrets bucket and every key, if the etcd client and the store both accept it, they name the same bucket and id |
| Keys.Codec.SecretsPrefixDisagrees | pkg/store/store.go:760-791 | under a clean prefix ending in the secrets bucket every plain resource is named differently by the two |
| Keys.Codec.AgreementExact | pkg/store/store.go:760-791 | all keys of a prefix agree if and only if the prefix does not end in the secrets bucket or has an empty segment |
| Keys.Codec.UncleanPrefixRefused | pkg/store/store.go:760-791 | under a prefix with an empty segment no disagreement can arise |
| Keys.Codec.StoreAcceptsExactly | pkg/store/store.go:760-791 | of the keys the etcd client accepts, the store decodes exactly the plugin list and, under a clean prefix, the resources it can name |
| Keys.Codec.OnlyPluginsAlias | pkg/etcd/watcher.go:250-280 | two different keys name one resource only if they are the two spellings of the plugin list |
| Keys.Codec.ManagedKeyInjective | pkg/etcd/watcher.go:250-280 | apart from that spelling, decoding under a prefix is injective |
| Keys.Codec.ParsedIsStorable | pkg/store/store.go:760-791 | whatever the store decodes is a resource with a well-formed id of a managed bucket |
| Keys.Codec.StandaloneRoundTrip | pkg/config/standalone.go:611-615 | the key written for a resource of a file decodes back to it if and only if its id is a single non-empty segment, or manager/name for a secret |
| Keys.Codec.SlashedIdCrossesBuckets | pkg/config/standalone.go:611-615 | an id holding another bucket's name is decoded as that bucket's row |
| ConfigStore.ApplyAllRow | pkg/store/store.go:617-641 | a committed batch leaves each row as its last mutation wants it and all other rows alone |
| ConfigStore.LastWriterDecides | pkg/store/store.go:622-641 | a row is as the last mutation that decodes to it wants it, or as it was |
| ConfigStore.CommittedFollows | pkg/store/store.go:617-641 | row by row: the last word on each row the batch names, the others as they were, those of managed buckets dropped by a replacement unless preserved |
| ConfigStore.TouchesMeaning | pkg/store/store.go:539-570 | a batch touches some buckets exactly when it replaces everything or a key in it decodes to one of them |
| ConfigStore.OneOwnerMeaning | pkg/store/standalone_snapshot.go:62-89 | the table has one owner per key exactly when no two stored consumer rows give the same lookup key |
| ConfigStore.SupportedMeaning | pkg/store/store.go:553-555 | the batch is supported exactly when no key that decodes comes with an unknown operation |
| ConfigStore.RefusedMeaning | pkg/store/store.go:571-606 | a position is refused only if it is not valid by itself or asks for a lookup key that another consumer has in its stored row or is given by the batch |
| ConfigStore.Schema.CommittedConsumer | pkg/store/store.go:617-641 | the lookup keys a consumer has after a commit, by its last mutation, preservation and replacement |
| ConfigStore.Schema.FinalTable | pkg/store/store.go:670-758 | a consumer has a lookup key in the table a batch would leave exactly when its stored row stays or the batch's last word on it is a PUT that gives it the key |
| ConfigStore.Batch.NothingCollides | pkg/store/store.go:724-757 | validation in order refuses nothing if and only if no key that a deciding PUT gives stays with, or is given to, another consumer, whatever the order |
| ConfigStore.Batch.KeeperWins | pkg/store/store.go:687-722 | a deciding PUT that asks for a key which another consumer keeps is refused |
| ConfigStore.Batch.EarlierWins | pkg/store/store.go:735-755 | of two deciding PUTs that give one key to different consumers at least one is refused |
| ConfigStore.Batch.TrackNext | pkg/store/store.go:735-755 | the owner map stays exact from one parsed mutation to the next, a refused one claiming nothing |
| ConfigStore.Schema.FreeIsOneOwner | pkg/store/store.go:670-758 | the committed table has one owner per key if and only if no deciding PUT gives a key that stays another's or is given to another |
| ConfigStore.Schema.RefusesNothing | pkg/store/store.go:544-606 | no position is refused if and only if every mutation is valid by itself and the committed table has one owner per key |
| ConfigStore.Schema.TableUntouched | pkg/store/store.go:539-563 | a batch that names no consumer and replaces nothing leaves the consumer table, so skipping the rebuild is right |
| ConfigStore.Schema.ParsedEntry | pkg/store/store.go:544-556 | an entry is in the parsed batch exactly when it stands at its own position with a key that decodes |
| ConfigStore.Store.Open | pkg/store/store.go:137-165 | opening succeeds exactly when no two persisted consumers share a lookup key |
| ConfigStore.Store.RegisterKeys | pkg/store/standalone_snapshot.go:62-89 | registering a consumer's keys fails exactly when one of them has an owner, and keeps the index inverse to the table |
| ConfigStore.Store.CollectConsumers | pkg/store/standalone_snapshot.go:41-89 | the rebuild succeeds exactly when the committed rows give each lookup key one owner, and then both indexes are those of the rows |
| ConfigStore.Store.RebuildConsumerIndexes | pkg/store/standalone_snapshot.go:41-101 | the same for the store's fields, with nothing changed on failure |
| ConfigStore.Store.GetConsumerName | pkg/store/consumer_kv.go:456-466 | the consumer found by a lookup key has it in its stored row, and none is found only if no stored row has it |
| ConfigStore.Store.KeptOwners | pkg/store/store.go:687-722 | before the first mutation each key is owned by exactly the consumer that keeps it |
| ConfigStore.Store.FindCollision | pkg/store/store.go:735-741 | a PUT collides exactly when one of its keys is owned by another consumer |
| ConfigStore.Store.ClaimKeys | pkg/store/store.go:753-755 | the keys of an accepted PUT, and no others, change their owner to its consumer |
| ConfigStore.Store.RejectCollisions | pkg/store/store.go:724-757 | exactly the positions of colliding PUTs are rejected, in increasing order: those that ask for a key another consumer keeps, or was given by an earlier PUT that was not rejected |
| ConfigStore.Store.ValidateLookupKeys | pkg/store/store.go:670-758 | the same for a parsed batch against the store's rows, swaps, deletes, preservation and replacement included |
| ConfigStore.Store.CheckMutation | pkg/store/store.go:571-597 | one PUT is accepted exactly when its resource is valid, and a consumer's credentials are prepared exactly then |
| ConfigStore.Store.ParseBatch | pkg/store/store.go:544-598 | the parsed batch, the credentials of the consumer PUTs and, in increasing order, exactly the positions of mutations invalid by themselves; unsupported operations end it |
| ConfigStore.Store.ValidateBatch | pkg/store/store.go:544-606 | exactly the positions refused by themselves or by collision, each once, and none if and only if the batch may be committed |
| ConfigStore.Store.Commit | pkg/store/store.go:622-663 | the rows after the commit, the indexes of those rows, and each counter raised exactly for the buckets touched |
| ConfigStore.Store.ProcessMutations | pkg/store/store.go:523-668 | each outcome exactly under its condition; applied only if every key decodes, every consumer's credentials parse and every other PUT is valid, and then the rows follow the batch row by row and the counters count it; invalid with every such position and no position without a reason; otherwise nothing changes; the duplicate error after the commit never occurs |
| ConfigStore.Store.Submit | pkg/store/event.go:148-161 | a sender that waits is told applied exactly if the batch is supported, acceptable and met no fault, invalid with exactly the refused positions if it is not acceptable; what the rows are then |
| EtcdHistory.AtLater | pkg/etcd/watcher.go:641-675 | etcd's contents at a later revision are the earlier contents with the events between replayed |
| EtcdReplica.SnapshotKeepsInv | pkg/etcd/watcher.go:562-639 | a full snapshot establishes the mirror at its revision whatever the store held, rejected resources aside |
| EtcdReplica.WatchKeepsInv | pkg/etcd/watcher.go:641-710 | a watch response without gap carries the mirror to its revision |
| EtcdReplica.RunKeepsInv | pkg/etcd/watcher.go:365-446 | every state of every run of snapshots, responses and failed applies keeps the invariant |
| EtcdReplica.RunMirrors | pkg/etcd/watcher.go:504-710 | after each successful apply every managed key outside the quarantine has in the store exactly etcd's value, or absence, at the last revision, the two spellings of the plugin list aside |
| EtcdReplica.WrittenByLast | pkg/etcd/watcher.go:504-560 | the last change that names a resource decides its row, whatever key it has |
| EtcdReplica.RunSpells | pkg/etcd/watcher.go:504-710 | in every state of a run that is in step, with both spellings outside the quarantine, the row is etcd's value, or absence, under the spelling applied last |
| EtcdReplica.AliasedKeysMirrored | pkg/etcd/watcher.go:267-275 | after each successful apply of every run, with both spellings outside the quarantine, both are mirrored if and only if etcd has the same under both, and one if and only if it was applied last or etcd has the same under both |
| EtcdReplica.TwinRemovesRow | pkg/etcd/watcher.go:267-275 | a run in which the second spelling is set and removed: etcd has the plugin list, nothing is quarantined, and the row is gone |
| EtcdReplica.RevisionNeverDecreases | pkg/etcd/watcher.go:631-634 | the last revision never decreases, stale responses included |
| EtcdReplica.QuarantineAccurate | pkg/etcd/watcher.go:474-484 | after any run a managed key is quarantined exactly when its latest change was rejected the last time it was tried, at that change's revision |
| EtcdClient.CommittedIsWritten | pkg/etcd/watcher.go:504-560 | what the store commits for a pruned batch is what writing the unrejected candidates in order gives |
| EtcdClient.ConfigClient.ApplyMutationBatch | pkg/etcd/watcher.go:504-560 | a batch that is applied, perhaps after one retry, leaves exactly the candidates that the store did not refuse written and the refused rows preserved; without faults it is applied exactly when what is left takes no key that stays another's |
| EtcdClient.ConfigClient.CollectRejections | pkg/etcd/watcher.go:520-539 | the rejected positions and the rows to preserve, an error exactly if a position is out of range or named twice |
| EtcdClient.ConfigClient.SendPruned | pkg/etcd/watcher.go:540-559 | the retry without the refused candidates, applied without faults exactly when it takes no key that stays another's |
| EtcdClient.ConfigClient.CollectSnapshot | pkg/etcd/watcher.go:568-597 | the candidates and known keys of a snapshot, in order |
| EtcdClient.ConfigClient.CollectEvents | pkg/etcd/watcher.go:642-681 | the candidates of a response, and the known keys after its puts and deletes |
| EtcdClient.ConfigClient.ApplySnapshot | pkg/etcd/watcher.go:562-639 | success is the model's snapshot step with exactly the refused candidates rejected, and a failure leaves the client as it was; without faults it succeeds exactly if the snapshot is complete and what is left of it takes no key that stays another's |
| EtcdClient.ConfigClient.Judge | pkg/etcd/watcher.go:612-619 | the quarantine after the verdicts on a batch, in order |
| EtcdClient.ConfigClient.ApplyWatchResponse | pkg/etcd/watcher.go:641-710 | success is the model's watch step with exactly the refused candidates rejected, and a failure leaves the client as it was; without faults it succeeds exactly if the response is complete, its operations are known and what is left of it takes no key that stays another's |
| EtcdClient.ConfigClient.Meet | pkg/etcd/watcher.go:380-445 | an input that is due, a response on the stream, its breaking, or a snapshot while recovering, is a step of a run, an apply exactly when it can be; any other input changes nothing |
| EtcdClient.ConfigClient.Watch | pkg/etcd/watcher.go:365-446 | through any sequence of inputs, one state after each with the step that its input calls for, all within the mirror's invariant, and the last revision that of the last successful apply |
| EtcdClient.WatchProlongsRun | pkg/etcd/watcher.go:365-446 | the steps of a watch continue the run that led to it, so every theorem about runs holds of watching |
| EtcdClient.EtcdSourceIsFaithful | pkg/etcd/watcher.go:250-297 | the gateway's own key functions meet every assumption of the mirror theorem under any prefix not ending in the secrets bucket |
| EtcdClient.PluginListSpellings | pkg/etcd/watcher.go:267-275 | under every prefix the plugin list has two different keys of one resource |
| EtcdClient.RetryIsAcceptable | pkg/etcd/watcher.go:546-557 | the store accepts the retry if and only if no key it gives stays another's or is given to another |
| EtcdClient.RetrySucceedsExactly | pkg/etcd/watcher.go:546-557 | if no two candidates name one consumer, the retry is accepted if and only if no candidate left asks for a lookup key in the stored row of a refused consumer |
| EtcdClient.RetryCanBeRejected | pkg/etcd/watcher.go:546-557 | a batch of two of which the store refuses exactly the first, and then the retry with the second alone |
| Standalone.RetainSettles | pkg/config/standalone.go:622-637 | retaining one more resource gives the snapshot that settles it at its last good row, or its absence |
| Standalone.AcceptedReload | pkg/config/standalone.go:153-221 | after an accepted offer the store's file buckets equal the settled snapshot if and only if every written resource decodes back to itself |
| Standalone.AcceptedRoundTrips | pkg/config/standalone.go:598-620 | it is enough that no resource of the file decodes to another one |
| Standalone.RefusedIsAtFault | pkg/config/standalone.go:176-210 | the store refuses a resource of the file only if it is at fault: undecodable, invalid, without parsing credentials, or asking for a lookup key that another consumer has or is given |
| Standalone.CodecIsCoherent | pkg/config/standalone.go:611-615 | the gateway's codec meets what the reload needs of it |
| Standalone.CodecIsSound | pkg/store/store.go:760-791 | and what the store assumes of every key it decodes |
| Standalone.StandaloneFileWatcher.StandaloneMutations | pkg/config/standalone.go:598-620 | one PUT for each resource that is not preserved, and no other |
| Standalone.StandaloneFileWatcher.Withdraw | pkg/config/standalone.go:193-207 | the rejected resources, and only they, are preserved and settled at their last good rows; progress is made whenever something was rejected |
| Standalone.StandaloneFileWatcher.Offer | pkg/config/standalone.go:176-191 | one batch to the store: accepted and committed whole, or refused at exactly the store's positions, one of them at least |
| Standalone.StandaloneFileWatcher.OfferOnce | pkg/config/standalone.go:176-210 | one round ends the reload or withdraws something still offered, and then nothing was written; without a fault it ends only by being accepted |
| Standalone.StandaloneFileWatcher.OfferUntilAccepted | pkg/config/standalone.go:163-211 | the loop terminates, never with a bad index or without progress, without faults always accepted; what it applied is the settled snapshot, and what it withdrew is unreadable or at fault |
| Standalone.StandaloneFileWatcher.ReloadSnapshot | pkg/config/standalone.go:153-221 | a readable file is reloaded unless the watcher stops or a delivery fails; everything that is not valid by itself is quarantined and nothing that is not unreadable or at fault; from a store in step with the snapshot, a reload leaves it in step if and only if what was written round-trips; failures keep the snapshot |
| SnapshotCache.Setup.UntouchedView | pkg/store/store.go:558-560 | a batch that does not bump the configuration generation leaves every row of a snapshot as it was |
| SnapshotCache.GatewayIsSound | pkg/store/getter.go:784-793 | every bucket a snapshot is built from is one whose changes bump the generation |
| SnapshotCache.WriterKeepsInv | pkg/store/store.go:617-663 | commit, bump and acknowledgement in this order keep every reader's knowledge true |
| SnapshotCache.WriterIsNearer | pkg/store/store.go:617-663 | a commit is followed by its bump, exactly if it counts, and by its acknowledgement or refusal |
| SnapshotCache.ReaderMoves | pkg/store/getter.go:1099-1127 | what each atomic operation of a reader establishes for its result |
| SnapshotCache.RunKeepsInv | pkg/store/getter.go:1099-1166 | the invariant of every interleaving of readers with the event processor |
| SnapshotCache.RunIsReplay | pkg/store/store.go:617-663 | in every run the committed states are those the batches give one after another |
| SnapshotCache.GenerationCounts | pkg/store/store.go:558-560 | in every run the generation counts exactly the batches that touch its buckets |
| SnapshotCache.SnapshotIsFresh | pkg/store/getter.go:1099-1166 | a returned snapshot has exactly the rows, in the snapshot's buckets, of one committed state that both includes every batch acknowledged before the call and was the last one at some time while the counter stood at the snapshot's generation |
| SnapshotCache.CacheNeverRegresses | pkg/store/getter.go:1107-1126 | one reader at most is building, and the cached snapshot is never replaced by one of an older generation |
| SnapshotCache.ReturnedIsCached | pkg/store/getter.go:1107-1126 | in every interleaving a snapshot that was returned stays cached until one of a later generation is |
| SnapshotCache.CachedIsReturned | pkg/store/getter.go:1099-1113 | a call that finds the cached snapshot to be of the generation it has loaded returns it and leaves the mutex |
| SnapshotCache.ReaderProgresses | pkg/store/getter.go:1099-1127 | no deadlock: while a call has not ended, it or the owner of the mutex can move |
| SnapshotCache.EveryStepIsNearer | pkg/store/getter.go:1099-1127 | every operation of a reader takes it nearer to its end, unless a batch was counted while it built |
| SnapshotCache.HistoryIsKept | pkg/store/store.go:622-641 | committed states never change afterwards, so the state shown is a fact of the run |
| RouteLifecycle.MoveKeepsWord | pkg/server/route_handler.go:258-311 | the word counts the holders through every compare-and-swap and release, and only the retiring swap sets the bit |
| RouteLifecycle.MoveKeepsDrain | pkg/server/route_handler.go:282-311 | a retired generation without holders is drained or some goroutine is about to close its channel, and no other generation is |
| RouteLifecycle.MoveKeepsOwner | pkg/server/route_handler.go:224-252 | a generation is published, or owned by one goroutine, or stopped, and never two of these |
| RouteLifecycle.MoveKeepsHijack | pkg/server/route_handler.go:313-352 | a registered connection stays within reach of the retirer until it is closed |
| RouteLifecycle.StageKeeps | pkg/server/route_handler.go:313-337 | registering, refusing and unregistering a connection keep the invariant |
| RouteLifecycle.StepKeepsInv | pkg/server/route_handler.go:45-60 | every step of every goroutine and connection keeps it |
| RouteLifecycle.RunKeepsInv | pkg/server/route_handler.go:224-377 | so does every run with fewer than 2^63 holders |
| RouteLifecycle.LastReplaceIsCurrent | pkg/server/route_handler.go:224-252 | an open handler serves the generation of the last Replace that took the mutex, or the first one; a closed one serves none |
| RouteLifecycle.ReplacePublishes | pkg/server/route_handler.go:224-240 | the step in which Replace takes the mutex of an open handler makes its own generation current, and it goes on to retire only the one that was current until then |
| RouteLifecycle.ReplaceBringsItsOwn | pkg/server/route_handler.go:224-240 | the generation a Replace publishes is the new one it was called with |
| RouteLifecycle.CloseIsFinal | pkg/server/route_handler.go:240-252 | once Close has taken the mutex the handler stays closed and serves nothing |
| RouteLifecycle.RetiredWasSuperseded | pkg/server/route_handler.go:224-311 | no generation is retired before a Replace or Close took it out of service, or its own Replace met a closed handler |
| RouteLifecycle.RequestReachesCurrent | pkg/server/route_handler.go:45-60 | a request is only ever at a generation that was current, with a handler, at some time since it started, and ends without having held one only if it met no current generation or one without a handler |
| RouteLifecycle.RequestKeepsTrying | pkg/server/route_handler.go:258-268 | a request leaves a generation it has loaded only because that is retired, and its swap succeeds unless the word has changed |
| RouteLifecycle.LeaseIsGranted | pkg/server/route_handler.go:270-280 | a batch lease is for the generation it was asked of, and ends without it only if that was retired |
| RouteLifecycle.DrainSafety | pkg/server/route_handler.go:224-311 | in every interleaving the published generation is never retired, a stop runs at most once, only on a retired generation that nobody holds, and the channel of such a generation is closed unless some goroutine is on its way to close it |
| RouteLifecycle.RetiredForever | pkg/server/route_handler.go:258-280 | from its retirement on nobody takes a generation who does not hold it, and a stop is never undone |
| RouteLifecycle.StepKeepsSevered | pkg/server/route_handler.go:282-352 | once the retirer is through with a generation's connections, no step of anyone leads back to them |
| RouteLifecycle.HijackRace | pkg/server/route_handler.go:293-352 | from then on, in every later state of the live run, the hijacked set is empty and every connection of the generation is closed, unregistered, or was never added |
| RouteLifecycle.HijackedAreRegistered | pkg/server/route_handler.go:313-337 | while a generation is not retired its hijacked set is exactly its registered connections, and it never holds another |
| RouteLifecycle.Progress | pkg/server/route_handler.go:358-377 | no deadlock: while a call has not returned, some goroutine or registration can move |
| RouteLifecycle.EveryMoveIsNearer | pkg/server/route_handler.go:45-60 | every operation of a call takes it nearer to its end unless the word changed between load and swap or the loaded generation was retired |
| RouteLifecycle.QuiescentIsClean | pkg/server/route_handler.go:293-377 | when nothing can move, every generation but the published one is drained and stopped exactly once, its hijacked set is empty, and each of its connections was closed or unregistered itself |
| RouteLifecycle.OnlyRetiredAreClosed | pkg/server/route_handler.go:313-352 | the gateway closes a hijacked connection only after its generation was retired |
| RoutePatterns.WildcardKeysMeet | pkg/route/builder.go:665-675 | a one-label wildcard matches a host exactly when the index files both under one key |
| RoutePatterns.HostsRankMeaning | pkg/route/builder.go:637-653 | the scan's host rank, as the best match over all hosts |
| RoutePatterns.RanksRelated | pkg/route/builder.go:359-389 | index rank and scan rank are equal, except for a host spelled as a wildcard, where by-wildcard stands for by-name |
| RoutePatterns.EmbeddedShape | pkg/route/builder.go:118-128 | a supported URI with an embedded wildcard splits around it, and its dispatcher's prefix is the part before |
| RoutePatterns.SupportedExactly | pkg/route/builder.go:86-137 | which URIs can be routed and under which mux pattern: absolute, without braces, with distinct named parameters or with one wildcard at the end or as an inner segment |
| RoutePatterns.PlainPatternUnique | pkg/route/builder.go:86-137 | two URIs without embedded wildcard that go to one dispatcher are the same URI, parameters included |
| RoutePatterns.PlainBesideEmbedded | pkg/route/builder.go:607-615 | a plain route beside embedded ones matches exactly the paths below their prefix |
| RoutePatterns.MatchesExactlyBuilt | pkg/route/builder.go:607-686 | a supported URI matches exactly the paths it builds: each parameter replaced by a non-empty slash-free string, an embedded wildcard by a non-empty one, a final wildcard by any |
| RoutePatterns.RankExactly | pkg/route/builder.go:637-675 | a route's hosts admit a lower-case host exactly when there are none, one is it in any case with or without a final dot, or one is a wildcard for its first label; by name exactly in the second case |
| RoutePatterns.ValidHostsExactly | pkg/route/builder.go:232-259 | the hosts that can be indexed are exactly the plain names and a wildcard label before a plain name |
| Ordering.BinarySearch | pkg/route/builder.go:277-282 | the position of a string in a strictly sorted list, or where it belongs |
| Ordering.LessExactly | pkg/route/builder.go:277-282 | the order of strings is by the first difference, a proper prefix first |
| Ordering.Insert | pkg/route/builder.go:277-282 | insertion keeps the list strictly sorted and adds exactly that string |
| Dispatch.AddToHost | pkg/route/builder.go:262-283 | a host's decision stays the newest route for each method and for any method, with the methods in order |
| Dispatch.AddHost | pkg/route/builder.go:232-259 | filing one host puts the route under exactly the key that host matches by |
| Dispatch.AddToIndex | pkg/route/builder.go:227-260 | the index of a path decides, for every host and rank, over exactly the routes added |
| Dispatch.LookupFinds | pkg/route/builder.go:285-326 | a lookup returns the newest route at its rank and method, and tells whether the host has any route there |
| Dispatch.EmbeddedMatch | pkg/route/builder.go:677-686 | an embedded pattern matches exactly the paths with the dispatcher's prefix, its suffix and something between |
| Dispatch.BeforeNext | pkg/route/builder.go:549-573 | stepping from slash to slash meets every matching embedded route exactly once |
| Dispatch.VisitSuffixes | pkg/route/builder.go:546-581 | the loop over the path's slashes finds the newest matching embedded route of the pass |
| Dispatch.AddAllowedMethods | pkg/route/builder.go:328-353 | the allowed methods become those of all routes at the host's three ranks, strictly sorted |
| Dispatch.PassSettles | pkg/route/builder.go:454-499 | the first pass that finds a route finds the best one in the scan's order |
| Dispatch.WildcardDispatcher.Add | pkg/route/builder.go:434-452 | adding a route keeps the index over exactly the routes added |
| Dispatch.WildcardDispatcher.MatchEmbedded | pkg/route/builder.go:534-581 | one embedded pass returns the newest route among those whose pattern matches, or none |
| Dispatch.WildcardDispatcher.MatchNonEmbedded | pkg/route/builder.go:583-605 | the same for the routes without embedded wildcard |
| Dispatch.WildcardDispatcher.AllowedMethods | pkg/route/builder.go:511-532 | the methods of exactly the routes that match path and host |
| Dispatch.WildcardDispatcher.ServeHTTP | pkg/route/builder.go:454-509 | for all routes with valid hosts and every request, the answer is the linear scan's: its best route by embedded pattern, host rank, exact method and newest registration; 405 with the non-empty, strictly sorted methods exactly when some route matches path and host; else 404; a route is served exactly if one's URI builds the path, its hosts admit the host and its method is the request's or any |
| Dispatch.RanksOrderAlike | pkg/route/builder.go:637-653 | the two host ranks order routes alike for every request host |
| Dispatch.RefinesScan | pkg/route/builder.go:607-686 | what the index answers is what the scan answers |
| Dispatch.ScanIsDeterministic | pkg/route/builder.go:637-686 | the scan's answer is unique, so the index gives it and no other |
| Dispatch.ScanMeaning | pkg/route/builder.go:607-686 | what a scan answers, in terms of the paths that URIs build and the hosts they admit |
| Balancing.NewPriorityGroups | pkg/proxy/priority.go:16-57 | for any servers the groups partition those of positive weight by priority, strictly descending, each with its sorted targets and a selector over them |
| Balancing.GroupedIsLayered | pkg/proxy/priority.go:16-57 | the groups as tiers: disjoint, together the positive-weight servers, no priority above an earlier tier's |
| Balancing.GroupedIsValid | pkg/proxy/priority.go:16-57 | the groups can serve selections if and only if the empty string is not one of the targets |
| Balancing.NextUntried | pkg/proxy/priority.go:132-169 | a group's next target is eligible, the heaviest and first in order unless all are eligible, and missing only if none is |
| Balancing.FirstUntried | pkg/proxy/priority.go:83-90 | an untried candidate of the highest group that has one, or none if all were tried |
| Balancing.RequestState.Select | pkg/proxy/priority.go:70-81 | the next attempt's target, and the attempts remembered, a new cycle beginning exactly when all candidates were tried |
| Balancing.RequestState.RecordAttempt | pkg/proxy/priority.go:123-130 | a target chosen elsewhere counts as attempted |
| Balancing.PriorityLoadBalance.NextForRequest | pkg/proxy/priority.go:70-81 | the selection over all positive-weight targets |
| Balancing.CycleCovers | pkg/proxy/priority.go:70-169 | from where a cycle begins, the next selections visit every candidate exactly once and end where the next cycle begins |
| Balancing.HigherFirst | pkg/proxy/priority.go:83-90 | within a cycle no target is tried after one of a lower priority group |
| Balancing.CycleStarts | pkg/proxy/priority.go:70-81 | cycles follow each other without a gap |
| Retry.Forward | pkg/proxy/retry.go:83-112 | attempts stop at the first success, at a prevented retry or after the last one, each on the next target of the request's tour |
| Retry.EveryNodeOnce | pkg/proxy/retry.go:83-112 | the first attempts of a tour are on every server of positive weight exactly once, higher priorities first |
| Retry.Serve | pkg/route/builder.go:4058-4063 | from the nodes to the last attempt: one attempt at most without replay, one more than the configured retries if all fail; with default retries a replayable request that meets only failures is attempted once per node and reaches every positive-weight node before any twice, higher priorities first, so all nodes exactly once if all have weight |
| Retry.CyclesCover | pkg/proxy/retry.go:83-112 | with more retries every complete cycle of attempts covers all candidates once |
| Health.CountersMeaning | pkg/proxy/health.go:318-411 | the counters are the reports of each class since the last healthy status, and the healthy statuses since the last failure |
| Health.HealthStep | pkg/proxy/health.go:318-411 | health changes, and the generation grows by one, exactly where the reports trip or restore the target |
| Health.PassiveHysteresis | pkg/proxy/health.go:318-411 | over every sequence of reports a target is unhealthy exactly when a failure class reached its positive threshold with no healthy status between, and no restoring run of healthy statuses followed |
| Health.TargetsAreIndependent | pkg/proxy/health.go:318-411 | each target's state is that of its own reports, whatever others are reported |
| Health.CountersWithMarks | pkg/proxy/health.go:318-526 | with reports and marks in any mixture, the failure counters of a healthy target are the reports of each class since the last healthy status or recovering mark, and the success counter of an unhealthy one the healthy statuses since the last failure or mark |
| Health.HealthWithMarks | pkg/proxy/health.go:318-526 | in such a mixture health changes, and the generation grows by one, exactly where a report trips or restores the target or a mark is due |
| Health.HealthAwareLoadBalance.RefreshHealthySelectors | pkg/proxy/health.go:293-316 | each group's selector ranges over exactly its healthy targets |
| Health.HealthAwareLoadBalance.Next | pkg/proxy/health.go:216-234 | a healthy target of the highest group that has one; any target of the highest group only when none is healthy |
| Health.HealthAwareLoadBalance.NextForRequest | pkg/proxy/health.go:236-278 | a request's next target among the healthy ones, or among all when none is healthy; a quarantined target only when no target is healthy, and none only when there is no target |
| Health.HealthAwareLoadBalance.ReportHTTP | pkg/proxy/health.go:318-373 | the reported target's new state, no other target's, and selectors that follow it |
| Health.HealthAwareLoadBalance.ReportTCPFailure | pkg/proxy/health.go:375-411 | the same for connection failures and timeouts |
| Health.HealthAwareLoadBalance.HealthStatus | pkg/proxy/health.go:431-439 | health and generation of a target, an unknown one being unhealthy at generation 0 |
| Health.HealthAwareLoadBalance.Mark | pkg/proxy/health.go:467-526 | a mark applies exactly when it changes health and its generation is the expected one, and selectors follow it |
| Probes.DecisionMeaning | pkg/proxy/active_health.go:348-415 | counters are the streaks of the results applied, a stale result restarts them, and the target is marked exactly when a streak is long enough |
| Probes.MarksAreEarned | pkg/proxy/active_health.go:348-415 | in every interleaving a probe goes on to mark exactly when it is not stale and completes a streak of its threshold |
| Probes.SameGeneration | pkg/proxy/health.go:467-526 | equal generations at two steps mean the same health throughout |
| Probes.StaleProbesAreHarmless | pkg/proxy/active_health.go:321-420 | when a probe's mark changes a target, every counted result came from a probe that began under the current generation, and health had not changed since |
| Probes.MarkFlips | pkg/proxy/active_health.go:348-415 | in the step of a mark the target's health changes exactly if its generation is still the probe's and its health is what the mark is to change, to what the mark says, the counters cleared on recovery |
| Probes.HealthIsItsHistory | pkg/proxy/active_health.go:321-420 | in every interleaving the target's health is what reports, marks of others and marks of probes make of it in their order |
| Probes.RoundsEnd | pkg/proxy/active_health.go:321-420 | a probe is stamped with the generation at its beginning and applied with its own result, and every further step leads to the end of its round |
| Probes.AnythingMayInterfere | pkg/proxy/active_health.go:321-346 | reports and marks of others may fall between any two steps of the probe goroutine, which always has a step of its own |
| ClusterRegistries.ClusterRegistry.Acquire | pkg/proxy/registry.go:58-83 | a lease of the configuration's live cluster, or of a new one, refused exactly when the registry is closed or the cluster cannot be made |
| ClusterRegistries.ClusterRegistry.Stop | pkg/proxy/registry.go:85-128 | stopping twice does nothing; the cluster is closed exactly by its last live lease |
| ClusterRegistries.ClusterRegistry.Withdraw | pkg/proxy/registry.go:97-126 | what stays published is exactly what the remaining entries publish |
| ClusterRegistries.ClusterRegistry.BeginClose | pkg/proxy/registry.go:141-155 | closing takes every entry, and later acquires and releases find none |
| ClusterRegistries.ClusterRegistry.FinishClose | pkg/proxy/registry.go:156-162 | every cluster taken is closed once and every series withdrawn |
| ClusterRegistries.ClusterRegistry.ClosedOnlyWhenUnused | pkg/proxy/registry.go:26-28 | a cluster is not closed under a live lease unless the registry is closed |
| ClusterRegistries.ClusterRegistry.UnusedIsClosed | pkg/proxy/registry.go:85-128 | in an open registry a cluster is closed exactly when no live lease has it |
| ClusterRegistries.ClusterRegistry.SeriesAreTheUnion | pkg/proxy/registry.go:98-125 | in an open registry a status series is shown exactly when the configuration of some live lease has it |
| ClusterRegistries.ClusterRegistry.EqualConfigurationsShare | pkg/proxy/registry.go:58-83 | in an open registry two live leases share their cluster exactly when their configurations are equal |
| SharedClients.ReleaseKeeps | pkg/shared/clients.go:77-98 | the last release closes the entry and makes one goroutine responsible for its client |
| SharedClients.RunKeepsInv | pkg/shared/clients.go:37-101 | references equal holders in every state of every interleaving |
| SharedClients.ClientLifetime | pkg/shared/clients.go:37-101 | each client is closed at most once and never while in use, so no acquire returns one whose teardown has begun |
| SharedClients.NoClientIsLost | pkg/shared/clients.go:59-98 | every client made is in use exactly until its teardown begins |
| SharedClients.TeardownIsFinal | pkg/shared/clients.go:47-58 | from the start of its teardown on a client is never in use again |
| SharedClients.RunKeepsSharing | pkg/shared/clients.go:37-101 | in every state an open entry is registered under its key until a creation for it fails |
| SharedClients.HoldersShare | pkg/shared/clients.go:37-75 | two holders of one key have the same client exactly when they found the same entry, which they did if no creation for either entry failed and did not if one failed for only one of them |
| SharedClients.KeyIsShared | pkg/shared/clients.go:32-37 | while no creation for a key fails, all who hold a client of the key at one time hold the same |
| SharedClients.SecondClient | pkg/shared/clients.go:59-70 | a run in which a creation fails while another goroutine waits, and two holders of one key have different clients |
| SharedClients.AcquireEnds | pkg/shared/clients.go:37-75 | in every interleaving an acquire is over only with a client of its key held or by its own failed creation, and one that meets an entry being torn down looks again |
| SharedClients.AcquireProgresses | pkg/shared/clients.go:37-101 | no deadlock: while a goroutine is busy with an acquire or a teardown, one of those can move |
| SharedClients.EveryStepIsNearer | pkg/shared/clients.go:37-101 | every step of an acquire or release takes it nearer to its end, unless it meets an entry being torn down |
| SharedClients.NoStaleRegistration | pkg/shared/clients.go:77-98 | in every interleaving a closed entry is registered only as long as somebody is tearing it down |

## Left out

- JSON decoding, schema checks, TLS material, encryption and digests: a resource's validity and a consumer's lookup keys are abstract functions, a cluster's digest is taken to be injective.
- The database, sockets, timers, the etcd client, file watching and HTTP serving: the steps they trigger are inputs, including their failures.
- EtcdClient.ConfigClient.Watch: assumes that responses are in order and cover all events up to their revision and that snapshots are not older than the applied revision, as etcd promises; back-off delays and the health monitor are not modelled.
- EtcdReplica.RunMirrors: leaves out a quarantined key, and the plugin list when its second spelling occurs in etcd, of which AliasedKeysMirrored says exactly when it is mirrored.
- EtcdReplica.AliasedKeysMirrored: says nothing while one of the two spellings is quarantined.
- Standalone.StandaloneFileWatcher.StandaloneMutations: the order of the mutations is arbitrary instead of sorted; nothing proved depends on it.
- Standalone.StandaloneFileWatcher.ReloadSnapshot: the reconciliation that rolls `current` back after a failed callback is not modelled.
- ConfigStore.Store.ProcessMutations: the certificate index and the vault cache are not modelled, only the generation counters beside them.
- SnapshotCache.SnapshotIsFresh: speaks of the rows a snapshot is built from; decoding them, with last-good rules for what does not decode, is not modelled.
- RouteLifecycle.HijackRace: closing several connections in a row is one step of the retirer, which nothing can observe in between.
- RoutePatterns.RanksRelated: letters are lowered in ASCII only, and the request's host name is given without its port.
- Dispatch.WildcardDispatcher.Add: index records are values inside the dispatcher's maps, so aliasing between them is not modelled; routes registered directly on the mux are not part of this model.
- Retry.Serve: no server of positive weight has an empty name, because selections answer with the empty string when they have no target; GroupedIsValid says that this is the only condition.
- Balancing.RRLoadBalance.Next: any member of the weights may come next; the smooth weighted order is the library's.
- Retry.Forward: body replay, context cancellation and transport errors are a script of booleans; response bodies and the status chain are not modelled.
- Health.HealthAwareLoadBalance.NextForRequest: metrics observers are not modelled.
- Probes.StaleProbesAreHarmless: the generation counter does not wrap around.
- ClusterRegistries.ClusterRegistry.Acquire: the observer is one that shows status series.
- SharedClients.ClientLifetime: a client made is never nil, which the code takes as not made.
- Traffic splitting, stream routing, plugin execution and response streaming are not part of this model.
