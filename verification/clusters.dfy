/**
 * The registry of shared upstream clusters. Equal configurations share one cluster, each lease
 * counts as one reference, and the last lease to stop closes the cluster and withdraws the
 * status series that no other cluster of the same name still publishes.
 */
module ClusterRegistries {
  import opened Basics

  /** A cluster's effective configuration; its digest, the registry's key, is taken to be injective. */
  datatype ClusterConfig = ClusterConfig(name: string, targets: set<string>, rest: nat)

  type ClusterId = nat

  /** A published status series, by cluster name and target. */
  datatype Series = Series(name: string, target: string)

  datatype Entry = Entry(cluster: ClusterId, refs: nat)

  datatype Lease = Lease(key: ClusterConfig, cluster: ClusterId)

  type Entries = map<ClusterConfig, Entry>

  // ----- what the invariant counts -----

  /** The leases of a key that were not stopped. */
  function Live(leases: seq<Lease>, stopped: set<nat>, key: ClusterConfig): set<nat> {
    set id | 0 <= id < |leases| && leases[id].key == key && id !in stopped
  }

  /** Every entry's references are its live leases, of which there is one at least. */
  ghost predicate Conserved(entries: Entries, leases: seq<Lease>, stopped: set<nat>) {
    forall key :: key in entries ==> entries[key].refs == |Live(leases, stopped, key)| > 0
  }

  /** As long as the registry is open, a live lease's cluster is the entry's. */
  ghost predicate Honoured(entries: Entries, leases: seq<Lease>, stopped: set<nat>) {
    forall id :: 0 <= id < |leases| && id !in stopped ==> leases[id].key in entries && entries[leases[id].key].cluster == leases[id].cluster
  }

  /** The clusters of the entries, those waiting to be closed and those closed are all that were created, each once. */
  ghost predicate Accounted(entries: Entries, created: nat, closing: set<ClusterId>, closes: seq<ClusterId>) {
    && (forall key :: key in entries ==> entries[key].cluster < created && entries[key].cluster !in closing && entries[key].cluster !in closes)
    && (forall k, l :: k in entries && l in entries && entries[k].cluster == entries[l].cluster ==> k == l)
    && (forall c :: c in closing ==> c < created && c !in closes)
    && (forall i :: 0 <= i < |closes| ==> closes[i] < created)
    && (forall i, j :: 0 <= i < j < |closes| ==> closes[i] != closes[j])
    && (forall c :: 0 <= c < created ==> c in closing || c in closes || HasCluster(entries, c))
  }

  ghost predicate HasCluster(entries: Entries, c: ClusterId) {
    exists key :: key in entries && entries[key].cluster == c
  }

  function Published(entries: Entries): set<Series> {
    set key, target | key in entries && target in key.targets :: Series(key.name, target)
  }

  /** The books of a registry: references, leases and clusters. */
  ghost predicate Books(entries: Entries, closed: bool, leases: seq<Lease>, stopped: set<nat>,
                        created: nat, closing: set<ClusterId>, closes: seq<ClusterId>)
  {
    && (forall id :: id in stopped ==> id < |leases|)
    && Conserved(entries, leases, stopped)
    && Accounted(entries, created, closing, closes)
    && (if closed then entries == map[] else Honoured(entries, leases, stopped) && closing == {})
  }

  /** The status series are those of the entries, and of names that Close has yet to withdraw. */
  ghost predicate Shown(entries: Entries, names: set<string>, series: set<Series>) {
    Published(entries) <= series && forall s :: s in series ==> s in Published(entries) || s.name in names
  }

  function ClustersOf(entries: Entries): set<ClusterId> {
    set key | key in entries :: entries[key].cluster
  }

  function NamesOf(entries: Entries): set<string> {
    set key | key in entries :: key.name
  }

  lemma LiveAdded(leases: seq<Lease>, stopped: set<nat>, lease: Lease, key: ClusterConfig)
    requires forall id :: id in stopped ==> id < |leases|
    ensures |Live(leases + [lease], stopped, key)| == |Live(leases, stopped, key)| + if lease.key == key then 1 else 0
  {
    var more := leases + [lease];
    if lease.key == key {
      assert Live(more, stopped, key) == Live(leases, stopped, key) + {|leases|};
    } else {
      assert Live(more, stopped, key) == Live(leases, stopped, key);
    }
  }

  lemma LiveStopped(leases: seq<Lease>, stopped: set<nat>, id: nat, key: ClusterConfig)
    requires id < |leases| && id !in stopped
    ensures |Live(leases, stopped + {id}, key)| == |Live(leases, stopped, key)| - if leases[id].key == key then 1 else 0
  {
    if leases[id].key == key {
      assert Live(leases, stopped, key) == Live(leases, stopped + {id}, key) + {id};
    } else {
      assert Live(leases, stopped, key) == Live(leases, stopped + {id}, key);
    }
  }

  /** The series left when an entry goes: all but its own that no other entry of its name publishes. */
  lemma PublishedWithout(entries: Entries, key: ClusterConfig)
    requires key in entries
    ensures var rest := entries - {key};
      Published(entries) == Published(rest) + set target | target in key.targets :: Series(key.name, target)
  {
    var rest := entries - {key};
    forall s | s in Published(entries)
      ensures s in Published(rest) || (s.name == key.name && s.target in key.targets)
    {
      var k, target :| k in entries && target in k.targets && s == Series(k.name, target);
      if k != key {
        assert k in rest;
      }
    }
  }

  class ClusterRegistry {
    var entries: Entries
    var closed: bool
    /** The leases handed out, by number, and those whose Stop ran. */
    var leases: seq<Lease>
    var stopped: set<nat>
    /** The clusters made so far, those that Close still has to close with their names, and the order of all closings. */
    var created: nat
    var closing: set<ClusterId>
    var closingNames: set<string>
    var closes: seq<ClusterId>
    /** What the status observer shows. */
    var series: set<Series>

    ghost predicate Valid()
      reads this
    {
      && Books(entries, closed, leases, stopped, created, closing, closes)
      && Shown(entries, closingNames, series)
      && (!closed ==> closingNames == {})
    }

    constructor ()
      ensures Valid() && entries == map[] && !closed && leases == [] && closes == []
    {
      entries, closed, leases, stopped, created := map[], false, [], {}, 0;
      closing, closingNames, closes, series := {}, {}, [], {};
    }

    /** A lease for the configuration's cluster; none when the registry is closed or the cluster cannot be made. */
    method Acquire(config: ClusterConfig, createFails: bool) returns (lease: Option<nat>)
      requires Valid()
      modifies this
      ensures Valid() && closed == old(closed) && stopped == old(stopped) && closes == old(closes)
      ensures lease.None? <==> old(closed) || (config !in old(entries) && createFails)
      ensures lease.None? ==> unchanged(this)
      ensures lease.Some? ==>
                && lease.value == |old(leases)| && |leases| == |old(leases)| + 1 && leases[..|old(leases)|] == old(leases)
                && leases[lease.value].key == config
                && leases[lease.value].cluster == (if config in old(entries) then old(entries)[config].cluster else old(created))
    {
      if closed {
        return None;
      }
      if config in entries {
        Share(config);
      } else {
        if createFails {
          return None;
        }
        Create(config);
      }
      return Some(|leases| - 1);
    }

    /** One more lease of the entry's cluster. */
    method Share(config: ClusterConfig)
      requires Valid() && !closed && config in entries
      modifies this`entries, this`leases
      ensures Valid() && leases == old(leases) + [Lease(config, old(entries)[config].cluster)]
    {
      var entry := entries[config];
      Shared(entries, leases, stopped, created, closes, config);
      entries := entries[config := Entry(entry.cluster, entry.refs + 1)];
      leases := leases + [Lease(config, entry.cluster)];
    }

    /** A new cluster with its first lease, its series published. */
    method Create(config: ClusterConfig)
      requires Valid() && !closed && config !in entries
      modifies this`entries, this`leases, this`created, this`series
      ensures Valid() && leases == old(leases) + [Lease(config, old(created))]
    {
      Made(entries, leases, stopped, created, closes, config);
      PublishedWith(entries, config, Entry(created, 1));
      series := series + set target | target in config.targets :: Series(config.name, target);
      entries := entries[config := Entry(created, 1)];
      leases := leases + [Lease(config, created)];
      created := created + 1;
    }

    /** Stopping a lease twice does nothing; the last live lease of an open registry closes the cluster. */
    method Stop(id: nat)
      requires Valid() && id < |leases|
      modifies this
      ensures Valid() && leases == old(leases) && stopped == old(stopped) + {id} && created == old(created) && closed == old(closed)
      ensures id in old(stopped) || old(closed) ==> entries == old(entries) && closes == old(closes) && series == old(series)
      ensures id !in old(stopped) && !old(closed) ==>
                if Live(leases, stopped, leases[id].key) == {}
                then entries == old(entries) - {leases[id].key} && closes == old(closes) + [leases[id].cluster]
                else entries.Keys == old(entries).Keys && closes == old(closes)
    {
      if id in stopped {
        assert stopped + {id} == stopped;
      } else if leases[id].key !in entries {
        NothingLeft(entries, leases, stopped, id, created, closing, closes, closed);
        stopped := stopped + {id};
      } else if entries[leases[id].key].refs - 1 > 0 {
        ReleaseOne(id);
      } else {
        ReleaseLast(id);
      }
    }

    method ReleaseOne(id: nat)
      requires Valid() && id < |leases| && id !in stopped && leases[id].key in entries && entries[leases[id].key].refs > 1
      modifies this`entries, this`stopped
      ensures Valid() && stopped == old(stopped) + {id} && entries.Keys == old(entries).Keys && Live(leases, stopped, leases[id].key) != {}
    {
      var key := leases[id].key;
      Returned(entries, leases, stopped, id, created, closes);
      stopped := stopped + {id};
      entries := entries[key := Entry(entries[key].cluster, entries[key].refs - 1)];
    }

    method ReleaseLast(id: nat)
      requires Valid() && id < |leases| && id !in stopped && leases[id].key in entries && entries[leases[id].key].refs <= 1
      modifies this`entries, this`stopped, this`series, this`closes
      ensures Valid() && stopped == old(stopped) + {id} && Live(leases, stopped, leases[id].key) == {}
      ensures entries == old(entries) - {leases[id].key} && closes == old(closes) + [leases[id].cluster]
    {
      var key := leases[id].key;
      Dropped(entries, leases, stopped, id, created, closes);
      assert Published(entries) == series;
      series := Withdraw(entries - {key}, key, series, entries);
      closes := closes + [entries[key].cluster];
      stopped := stopped + {id};
      entries := entries - {key};
    }

    /** Retires an entry's series: the whole name, or only what no other cluster of the name publishes. */
    static method Withdraw(rest: Entries, key: ClusterConfig, series: set<Series>, ghost before: Entries) returns (left: set<Series>)
      requires key in before && rest == before - {key} && series == Published(before)
      ensures left == Published(rest)
    {
      if exists k :: k in rest && k.name == key.name {
        var retained := set k, target | k in rest && k.name == key.name && target in k.targets :: target;
        left := series - set target | target in key.targets && target !in retained :: Series(key.name, target);
        Withdrawn(before, key, retained);
      } else {
        left := set s | s in series && s.name != key.name;
        WithdrawnName(before, key);
      }
    }

    /** The locked part of Close: the entries are taken, nothing is closed yet. */
    method BeginClose()
      requires Valid()
      modifies this
      ensures Valid() && closed && entries == map[] && leases == old(leases) && stopped == old(stopped) && closes == old(closes)
      ensures old(closed) ==> unchanged(this)
      ensures !old(closed) ==> closing == ClustersOf(old(entries))
    {
      if closed {
        return;
      }
      TakenBooks(entries, leases, stopped, created, closes);
      NamesTaken(entries, series);
      closing := ClustersOf(entries);
      closingNames := NamesOf(entries);
      closed := true;
      entries := map[];
    }

    /** The rest of Close, outside the lock: every cluster taken is closed, then its name withdrawn. */
    method FinishClose()
      requires Valid() && closed
      modifies this
      ensures Valid() && closed && closing == {} && series == {} && leases == old(leases) && stopped == old(stopped)
      ensures forall c :: c in old(closing) ==> c in closes
    {
      while closing != {}
        invariant Valid() && closed && leases == old(leases) && stopped == old(stopped)
        invariant forall c :: c in old(closing) ==> c in closing || c in closes
        decreases |closing|
      {
        CloseNext();
      }
      while closingNames != {}
        invariant Valid() && closed && closing == {} && leases == old(leases) && stopped == old(stopped)
        invariant forall c :: c in old(closing) ==> c in closes
        decreases |closingNames|
      {
        WithdrawNext();
      }
      assert Published(map[]) == {};
    }

    method CloseNext()
      requires Valid() && closed && closing != {}
      modifies this`closing, this`closes
      ensures Valid() && exists c :: c in old(closing) && closing == old(closing) - {c} && closes == old(closes) + [c]
    {
      var c := Pick(closing);
      closing := closing - {c};
      closes := closes + [c];
    }

    method WithdrawNext()
      requires Valid() && closed && closingNames != {}
      modifies this`closingNames, this`series
      ensures Valid() && exists name :: name in old(closingNames) && closingNames == old(closingNames) - {name}
    {
      var name := Pick(closingNames);
      closingNames := closingNames - {name};
      series := set s | s in series && s.name != name;
      assert Published(map[]) == {};
    }

    /** A cluster is never closed under a live lease, unless the whole registry is. */
    lemma ClosedOnlyWhenUnused(id: nat)
      requires Valid() && id < |leases| && leases[id].cluster in closes
      ensures id in stopped || closed
    {
    }

    /** In an open registry every cluster is closed or leased. */
    lemma UnusedIsClosed(c: ClusterId)
      requires Valid() && !closed && c < created
      ensures c in closes <==> forall id :: 0 <= id < |leases| && id !in stopped ==> leases[id].cluster != c
    {
      if key :| key in entries && entries[key].cluster == c {
        assert |Live(leases, stopped, key)| > 0;
        var id :| id in Live(leases, stopped, key);
        assert leases[id].cluster == c;
      }
    }

    /** In an open registry a series is shown exactly when some live lease's configuration has it. */
    lemma SeriesAreTheUnion(s: Series)
      requires Valid() && !closed
      ensures s in series <==>
              exists id :: 0 <= id < |leases| && id !in stopped && leases[id].key.name == s.name && s.target in leases[id].key.targets
    {
      if s in series {
        var key, target :| key in entries && target in key.targets && s == Series(key.name, target);
        assert |Live(leases, stopped, key)| > 0;
        var id :| id in Live(leases, stopped, key);
        assert leases[id].key.name == s.name && s.target in leases[id].key.targets;
      }
      forall id | 0 <= id < |leases| && id !in stopped && leases[id].key.name == s.name && s.target in leases[id].key.targets
        ensures s in series
      {
        assert leases[id].key in entries;
        assert Series(leases[id].key.name, s.target) in Published(entries);
      }
    }

    /** In an open registry two live leases share their cluster exactly when their configurations are equal. */
    lemma EqualConfigurationsShare(i: nat, j: nat)
      requires Valid() && !closed && i < |leases| && j < |leases| && i !in stopped && j !in stopped
      ensures leases[i].cluster == leases[j].cluster <==> leases[i].key == leases[j].key
    {
    }
  }

  /** One more lease of an entry. */
  lemma Shared(entries: Entries, leases: seq<Lease>, stopped: set<nat>, created: nat, closes: seq<ClusterId>, key: ClusterConfig)
    requires Books(entries, false, leases, stopped, created, {}, closes) && key in entries
    ensures var entry := entries[key];
      && Books(entries[key := Entry(entry.cluster, entry.refs + 1)], false, leases + [Lease(key, entry.cluster)], stopped, created, {}, closes)
      && Published(entries[key := Entry(entry.cluster, entry.refs + 1)]) == Published(entries)
  {
    Grant(entries, leases, stopped, key, entries[key].cluster, entries[key].refs + 1);
    SameClusters(entries, created, closes, key, entries[key].refs + 1);
  }

  /** Changing a count moves no cluster. */
  lemma SameClusters(entries: Entries, created: nat, closes: seq<ClusterId>, key: ClusterConfig, refs: nat)
    requires Accounted(entries, created, {}, closes) && key in entries
    ensures Accounted(entries[key := Entry(entries[key].cluster, refs)], created, {}, closes)
    ensures Published(entries[key := Entry(entries[key].cluster, refs)]) == Published(entries)
  {
    var more := entries[key := Entry(entries[key].cluster, refs)];
    forall c | 0 <= c < created
      ensures c in closes || HasCluster(more, c)
    {
      if k :| k in entries && entries[k].cluster == c {
        assert more[k].cluster == c;
      }
    }
    assert more.Keys == entries.Keys;
  }

  /** A new entry with its first lease. */
  lemma Made(entries: Entries, leases: seq<Lease>, stopped: set<nat>, created: nat, closes: seq<ClusterId>, key: ClusterConfig)
    requires Books(entries, false, leases, stopped, created, {}, closes) && key !in entries
    ensures Books(entries[key := Entry(created, 1)], false, leases + [Lease(key, created)], stopped, created + 1, {}, closes)
  {
    NotLive(entries, leases, stopped, key);
    Grant(entries, leases, stopped, key, created, 1);
    Created(entries, created, {}, closes, key);
  }

  /** A lease of a closed registry stops without effect. */
  lemma NothingLeft(entries: Entries, leases: seq<Lease>, stopped: set<nat>, id: nat,
                    created: nat, closing: set<ClusterId>, closes: seq<ClusterId>, closed: bool)
    requires Books(entries, closed, leases, stopped, created, closing, closes) && id < |leases| && id !in stopped && leases[id].key !in entries
    ensures closed && Books(entries, closed, leases, stopped + {id}, created, closing, closes)
  {
  }

  /** One lease less of an entry that keeps others. */
  lemma Returned(entries: Entries, leases: seq<Lease>, stopped: set<nat>, id: nat, created: nat, closes: seq<ClusterId>)
    requires Books(entries, false, leases, stopped, created, {}, closes) && id < |leases| && id !in stopped
    requires leases[id].key in entries && entries[leases[id].key].refs > 1
    ensures var key := leases[id].key;
      var less := entries[key := Entry(entries[key].cluster, entries[key].refs - 1)];
      && Books(less, false, leases, stopped + {id}, created, {}, closes) && Published(less) == Published(entries)
      && Live(leases, stopped + {id}, key) != {}
  {
    var key := leases[id].key;
    StopOne(entries, leases, stopped, id);
    SameClusters(entries, created, closes, key, entries[key].refs - 1);
  }

  /** The last lease of an entry. */
  lemma Dropped(entries: Entries, leases: seq<Lease>, stopped: set<nat>, id: nat, created: nat, closes: seq<ClusterId>)
    requires Books(entries, false, leases, stopped, created, {}, closes) && id < |leases| && id !in stopped
    requires leases[id].key in entries && entries[leases[id].key].refs <= 1
    ensures var key := leases[id].key;
      && Books(entries - {key}, false, leases, stopped + {id}, created, {}, closes + [entries[key].cluster])
      && Live(leases, stopped + {id}, key) == {} && entries[key].cluster == leases[id].cluster
  {
    var key := leases[id].key;
    StopOne(entries, leases, stopped, id);
    ClosedOne(entries, created, closes, key);
    assert |Live(leases, stopped + {id}, key)| == 0;
    forall i | 0 <= i < |leases| && i !in stopped + {id}
      ensures leases[i].key != key
    {
      assert i in Live(leases, stopped + {id}, leases[i].key);
    }
  }

  lemma TakenBooks(entries: Entries, leases: seq<Lease>, stopped: set<nat>, created: nat, closes: seq<ClusterId>)
    requires Books(entries, false, leases, stopped, created, {}, closes)
    ensures Books(map[], true, leases, stopped, created, ClustersOf(entries), closes)
  {
    Taken(entries, created, closes);
  }

  lemma NamesTaken(entries: Entries, series: set<Series>)
    requires Shown(entries, {}, series)
    ensures Shown(map[], NamesOf(entries), series)
  {
    forall s | s in series
      ensures s.name in NamesOf(entries)
    {
      var k, target :| k in entries && target in k.targets && s == Series(k.name, target);
    }
  }

  /** The entries that Close takes are exactly what is left to close. */
  lemma Taken(entries: Entries, created: nat, closes: seq<ClusterId>)
    requires Accounted(entries, created, {}, closes)
    ensures Accounted(map[], created, ClustersOf(entries), closes)
  {
    forall c | 0 <= c < created && c !in closes
      ensures c in ClustersOf(entries)
    {
      assert HasCluster(entries, c);
      var k :| k in entries && entries[k].cluster == c;
    }
  }

  /** The name's last cluster: withdrawing the whole name leaves what the other entries publish. */
  lemma WithdrawnName(entries: Entries, key: ClusterConfig)
    requires key in entries && !(exists k :: k in entries - {key} && k.name == key.name)
    ensures (set s | s in Published(entries) && s.name != key.name) == Published(entries - {key})
  {
    PublishedWithout(entries, key);
    forall s | s in Published(entries - {key})
      ensures s.name != key.name
    {
      var k, target :| k in entries - {key} && target in k.targets && s == Series(k.name, target);
    }
  }

  lemma Withdrawn(entries: Entries, key: ClusterConfig, retained: set<string>)
    requires key in entries
    requires retained == set k, target | k in entries - {key} && k.name == key.name && target in k.targets :: target
    ensures Published(entries) - (set target | target in key.targets && target !in retained :: Series(key.name, target)) == Published(entries - {key})
  {
    PublishedWithout(entries, key);
    forall s | s in Published(entries - {key}) && s.name == key.name
      ensures s.target in retained
    {
      var k, target :| k in entries - {key} && target in k.targets && s == Series(k.name, target);
    }
    forall target | target in key.targets && target in retained
      ensures Series(key.name, target) in Published(entries - {key})
    {
      var k :| k in entries - {key} && k.name == key.name && target in k.targets;
    }
  }

  lemma PublishedWith(entries: Entries, key: ClusterConfig, entry: Entry)
    ensures Published(entries[key := entry]) == Published(entries) + set target | target in key.targets :: Series(key.name, target)
  {
    var more := entries[key := entry];
    forall s | s in Published(more)
      ensures s in Published(entries) || (s.name == key.name && s.target in key.targets)
    {
      var k, target :| k in more && target in k.targets && s == Series(k.name, target);
      if k != key {
        assert k in entries;
      }
    }
    forall s | s in Published(entries)
      ensures s in Published(more)
    {
      var k, target :| k in entries && target in k.targets && s == Series(k.name, target);
      assert k in more;
    }
    forall target | target in key.targets
      ensures Series(key.name, target) in Published(more)
    {
      assert key in more;
    }
  }

  /** A key without an entry has no live lease in an open registry. */
  lemma NotLive(entries: Entries, leases: seq<Lease>, stopped: set<nat>, key: ClusterConfig)
    requires Honoured(entries, leases, stopped) && key !in entries
    ensures Live(leases, stopped, key) == {}
  {
  }

  /** One more lease, counted by its entry. */
  lemma Grant(entries: Entries, leases: seq<Lease>, stopped: set<nat>, key: ClusterConfig, cluster: ClusterId, refs: nat)
    requires Conserved(entries, leases, stopped) && Honoured(entries, leases, stopped)
    requires forall id :: id in stopped ==> id < |leases|
    requires refs == |Live(leases, stopped, key)| + 1 && (key in entries ==> entries[key].cluster == cluster)
    ensures Conserved(entries[key := Entry(cluster, refs)], leases + [Lease(key, cluster)], stopped)
    ensures Honoured(entries[key := Entry(cluster, refs)], leases + [Lease(key, cluster)], stopped)
  {
    forall k | k in entries || k == key
      ensures |Live(leases + [Lease(key, cluster)], stopped, k)| == |Live(leases, stopped, k)| + if k == key then 1 else 0
    {
      LiveAdded(leases, stopped, Lease(key, cluster), k);
    }
  }

  /** One lease less, still counted by its entry. */
  lemma StopOne(entries: Entries, leases: seq<Lease>, stopped: set<nat>, id: nat)
    requires Conserved(entries, leases, stopped) && id < |leases| && id !in stopped
    ensures forall k :: k in entries && k != leases[id].key ==> entries[k].refs == |Live(leases, stopped + {id}, k)| > 0
    ensures leases[id].key in entries ==> entries[leases[id].key].refs == |Live(leases, stopped + {id}, leases[id].key)| + 1
  {
    forall k | k in entries
      ensures |Live(leases, stopped + {id}, k)| == |Live(leases, stopped, k)| - if leases[id].key == k then 1 else 0
    {
      LiveStopped(leases, stopped, id, k);
    }
  }

  lemma Created(entries: Entries, created: nat, closing: set<ClusterId>, closes: seq<ClusterId>, key: ClusterConfig)
    requires Accounted(entries, created, closing, closes) && key !in entries
    ensures Accounted(entries[key := Entry(created, 1)], created + 1, closing, closes)
  {
    var more := entries[key := Entry(created, 1)];
    forall c | 0 <= c < created + 1
      ensures c in closing || c in closes || HasCluster(more, c)
    {
      if c == created {
        assert more[key].cluster == c;
      } else if k :| k in entries && entries[k].cluster == c {
        assert more[k].cluster == c;
      }
    }
  }

  lemma ClosedOne(entries: Entries, created: nat, closes: seq<ClusterId>, key: ClusterConfig)
    requires Accounted(entries, created, {}, closes) && key in entries
    ensures Accounted(entries - {key}, created, {}, closes + [entries[key].cluster])
  {
    var rest, more := entries - {key}, closes + [entries[key].cluster];
    forall c | 0 <= c < created
      ensures c in more || HasCluster(rest, c)
    {
      if k :| k in entries && entries[k].cluster == c && k != key {
        assert rest[k].cluster == c;
      }
    }
  }
}
