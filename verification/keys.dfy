/**
 * The two decoders of configuration keys. The etcd client names a resource from the part of
 * a key below its prefix (`ManagedKey`); the store names it from the end of the key
 * (`ParseMutationKey`). Everything replicated depends on the two agreeing.
 */
module Keys {
  import opened Basics

  /** Identifies one persisted resource. */
  datatype ResourceKey = ResourceKey(bucket: string, id: string)

  // ----- Go's strings package, on one-byte separators -----

  /** strings.Split(s, "/") */
  function Split(s: string): (parts: seq<string>)
    ensures |parts| >= 1
  {
    if s == "" then [""] else Prepend(s[0], Split(s[1..]))
  }

  /** The parts of a string with one more character in front. */
  function Prepend(c: char, parts: seq<string>): (r: seq<string>)
    requires |parts| >= 1
    ensures |r| >= 1
  {
    if c == '/' then [""] + parts else [[c] + parts[0]] + parts[1..]
  }

  /** strings.Join(parts, "/"), on a nonempty list */
  function Join(parts: seq<string>): string
    requires |parts| >= 1
  {
    if |parts| == 1 then parts[0] else parts[0] + "/" + Join(parts[1..])
  }

  predicate SlashFree(s: string) {
    '/' !in s
  }

  /** A path segment: nonempty and without a slash. */
  predicate Segment(s: string) {
    |s| > 0 && SlashFree(s)
  }

  function TrimLeft(s: string): string {
    if s != "" && s[0] == '/' then TrimLeft(s[1..]) else s
  }

  function TrimRight(s: string): string {
    if s != "" && s[|s| - 1] == '/' then TrimRight(s[..|s| - 1]) else s
  }

  lemma {:induction false} SplitSlashFree(s: string)
    requires SlashFree(s)
    ensures Split(s) == [s]
  {
    if s != "" {
      SplitSlashFree(s[1..]);
      assert [s[0]] + s[1..] == s;
    }
  }

  lemma ConcatIsAssociative(a: string, b: string, c: string)
    ensures a + b + c == a + (b + c)
  {
  }

  lemma JoinCons(first: string, rest: seq<string>)
    requires |rest| >= 1
    ensures Join([first] + rest) == first + "/" + Join(rest)
  {
    assert ([first] + rest)[1..] == rest;
  }

  lemma PrependJoins(c: char, parts: seq<string>)
    requires |parts| >= 1
    ensures Join(Prepend(c, parts)) == [c] + Join(parts)
  {
    if c == '/' {
      JoinCons("", parts);
      assert "" + "/" == [c];
    } else if |parts| > 1 {
      var first, rest := parts[0], parts[1..];
      assert parts == [first] + rest;
      JoinCons(first, rest);
      JoinCons([c] + first, rest);
      ConcatIsAssociative([c], first, "/");
      ConcatIsAssociative([c], first + "/", Join(rest));
    } else {
      assert Prepend(c, parts) == [[c] + parts[0]];
    }
  }

  lemma PrependSlashFree(c: char, parts: seq<string>)
    requires |parts| >= 1 && forall part :: part in parts ==> SlashFree(part)
    ensures forall part :: part in Prepend(c, parts) ==> SlashFree(part)
  {
    assert parts[0] in parts;
    assert forall part :: part in parts[1..] ==> part in parts;
  }

  lemma {:induction false} SplitParts(s: string)
    ensures forall part :: part in Split(s) ==> SlashFree(part)
    ensures Join(Split(s)) == s
  {
    if s != "" {
      SplitParts(s[1..]);
      PrependJoins(s[0], Split(s[1..]));
      PrependSlashFree(s[0], Split(s[1..]));
      assert s == [s[0]] + s[1..];
    }
  }

  lemma PrependConcat(c: char, a: seq<string>, b: seq<string>)
    requires |a| >= 1
    ensures Prepend(c, a + b) == Prepend(c, a) + b
  {
    assert (a + b)[1..] == a[1..] + b;
  }

  lemma {:induction false} SplitConcat(a: string, b: string)
    ensures Split(a + "/" + b) == Split(a) + Split(b)
  {
    var s := a + "/" + b;
    if a == "" {
      assert s[0] == '/' && s[1..] == b;
    } else {
      assert s[0] == a[0] && s[1..] == a[1..] + "/" + b;
      SplitConcat(a[1..], b);
      PrependConcat(a[0], Split(a[1..]), Split(b));
    }
  }

  lemma SplitPair(a: string, b: string)
    requires SlashFree(a) && SlashFree(b)
    ensures Split(a + "/" + b) == [a, b]
  {
    SplitConcat(a, b);
    SplitSlashFree(a);
    SplitSlashFree(b);
  }

  /** The key's segments without the empty one before a leading slash. */
  function KeySegments(key: string): seq<string> {
    var parts := Split(key);
    if parts[0] == "" then parts[1..] else parts
  }

  lemma SegmentsConcat(a: string, b: string)
    ensures KeySegments(a + "/" + b) == KeySegments(a) + Split(b)
  {
    SplitConcat(a, b);
    assert Split(a + "/" + b)[1..] == Split(a)[1..] + Split(b);
  }

  lemma SegmentsOfRooted(a: string, b: string)
    requires SlashFree(a)
    ensures KeySegments("/" + a + "/" + b) == [a] + Split(b)
  {
    assert "/" + a + "/" + b == "" + "/" + (a + "/" + b);
    SplitConcat("", a + "/" + b);
    SplitConcat(a, b);
    SplitSlashFree(a);
    SplitSlashFree("");
  }

  // ----- prefixes -----

  function CanonicalEtcdPrefix(prefix: string): string {
    var trimmed := TrimRight(TrimLeft(prefix));
    if trimmed == "" then "/" else "/" + trimmed + "/"
  }

  function Slashes(n: nat): string {
    seq(n, i => '/')
  }

  /** A name that neither begins nor ends with a slash, or none at all. */
  predicate IsTrimmed(name: string) {
    name == "" || (name[0] != '/' && name[|name| - 1] != '/')
  }

  lemma {:induction false} TrimLeftExactly(n: nat, s: string)
    requires s == "" || s[0] != '/'
    ensures TrimLeft(Slashes(n) + s) == s
  {
    if n > 0 {
      assert (Slashes(n) + s)[1..] == Slashes(n - 1) + s;
      TrimLeftExactly(n - 1, s);
    } else {
      assert Slashes(0) + s == s;
    }
  }

  lemma {:induction false} TrimRightExactly(s: string, n: nat)
    requires s == "" || s[|s| - 1] != '/'
    ensures TrimRight(s + Slashes(n)) == s
  {
    if n > 0 {
      var longer := s + Slashes(n);
      assert longer[..|longer| - 1] == s + Slashes(n - 1);
      TrimRightExactly(s, n - 1);
    } else {
      assert s + Slashes(0) == s;
    }
  }

  /** The canonical prefix has one slash on either side of the name, however many it was written with. */
  lemma CanonicalExactly(m: nat, name: string, n: nat)
    requires IsTrimmed(name)
    ensures CanonicalEtcdPrefix(Slashes(m) + name + Slashes(n)) == if name == "" then "/" else "/" + name + "/"
  {
    if name == "" {
      assert Slashes(m) + name + Slashes(n) == Slashes(m + n) + "";
      TrimLeftExactly(m + n, "");
    } else {
      assert Slashes(m) + name + Slashes(n) == Slashes(m) + (name + Slashes(n));
      TrimLeftExactly(m, name + Slashes(n));
      TrimRightExactly(name, n);
    }
  }

  /** The prefix in use: as it is if it ends with a slash, else the canonical one. */
  lemma PrefixExactly(m: nat, name: string)
    requires name != "" && IsTrimmed(name)
    ensures EffectivePrefix(Slashes(m) + name) == "/" + name + "/"
    ensures EffectivePrefix(name + "/") == name + "/" && EffectivePrefix("") == "/"
  {
    CanonicalExactly(m, name, 0);
    assert Slashes(m) + name + Slashes(0) == Slashes(m) + name;
    CanonicalExactly(0, "", 0);
    assert Slashes(0) + "" + Slashes(0) == "";
  }

  /** The prefix keys are compared with: anything ending in a slash is used as it is. */
  function EffectivePrefix(prefix: string): (p: string)
    ensures p != "" && p[|p| - 1] == '/'
  {
    if prefix == "" || prefix[|prefix| - 1] != '/' then CanonicalEtcdPrefix(prefix) else prefix
  }

  /** The segments of a prefix, up to its closing slash. */
  function PrefixSegments(prefix: string): seq<string> {
    var p := EffectivePrefix(prefix);
    KeySegments(p[..|p| - 1])
  }

  /** The last segment of a prefix; the bare slash has none. */
  function LastSegment(prefix: string): string {
    var segments := PrefixSegments(prefix);
    if segments == [] then "" else segments[|segments| - 1]
  }

  /** Whether a prefix has no empty segment between its slashes. */
  predicate CleanPrefix(prefix: string) {
    "" !in PrefixSegments(prefix)
  }

  /** The store sees the prefix's segments in front of the segments below the prefix. */
  lemma SegmentsBelowPrefix(prefix: string, relative: string)
    ensures KeySegments(EffectivePrefix(prefix) + relative) == PrefixSegments(prefix) + Split(relative)
  {
    var p := EffectivePrefix(prefix);
    assert p + relative == p[..|p| - 1] + "/" + relative;
    SegmentsConcat(p[..|p| - 1], relative);
  }

  /** The gateway's own names. The proofs use no more of them than `Codec.Valid`. */
  function Gateway(): Codec {
    Codec({"routes", "services", "upstreams", "global_rules", "plugin_configs", "plugin_metadata",
           "consumers", "consumer_groups", "plugins", "protos", "ssls", "stream_routes", "secrets"},
          "plugins", "secrets", "consumers", "apisix")
  }

  lemma GatewaySegment(bucket: string)
    requires bucket in Gateway().buckets
    ensures Segment(bucket) && bucket != Gateway().root
  {
  }

  lemma GatewayIsValid()
    ensures Gateway().Valid()
  {
    forall bucket | bucket in Gateway().buckets
      ensures Segment(bucket) && bucket != Gateway().root
    {
      GatewaySegment(bucket);
    }
    assert "plugins"[0] != "secrets"[0];
  }

  /** The names the two decoders share: managed buckets, the special ones among them, the store's root. */
  datatype Codec = Codec(buckets: set<string>, plugins: string, secrets: string, consumers: string, root: string) {

    ghost predicate Valid() {
      && (forall bucket :: bucket in buckets ==> Segment(bucket))
      && plugins in buckets && secrets in buckets && consumers in buckets
      && plugins != secrets && consumers != plugins && consumers != secrets
      && Segment(root) && root !in buckets
    }

    function PluginsKey(): ResourceKey {
      ResourceKey(plugins, plugins)
    }

    /** Names the resource of an etcd key, from the segments below the prefix. */
    function ManagedKey(prefix: string, key: string): Option<ResourceKey> {
      var p := EffectivePrefix(prefix);
      if !(p <= key) then None
      else if key[|p|..] == "" then None
      else ManagedParts(Split(key[|p|..]))
    }

    function ManagedParts(parts: seq<string>): Option<ResourceKey> {
      if "" in parts then None
      else if |parts| == 1 && parts[0] == plugins then Some(PluginsKey())
      else if |parts| == 2 then
        if parts[0] !in buckets || parts[0] == secrets then None
        else Some(ResourceKey(parts[0], parts[1]))
      else if |parts| == 3 && parts[0] == secrets then
        Some(ResourceKey(secrets, parts[1] + "/" + parts[2]))
      else None
    }

    /** The key a mutation carries to the store. */
    function StoreMutationKey(key: string, resource: ResourceKey): string {
      if resource == PluginsKey() then "/" + root + "/" + plugins else key
    }

    /** Names the resource of a store key, from its last segments. */
    function ParseMutationKey(key: string): Option<ResourceKey> {
      ParsedParts(KeySegments(key))
    }

    function ParsedParts(parts: seq<string>): Option<ResourceKey> {
      var n := |parts|;
      if n < 2 then None
      else if "" in parts then None
      else if n == 2 && parts[0] == root && parts[1] == plugins then Some(PluginsKey())
      else if parts[n - 2] == plugins then None
      else if n >= 3 && parts[n - 3] == secrets then
        Some(ResourceKey(secrets, parts[n - 2] + "/" + parts[n - 1]))
      else if parts[n - 2] == secrets then None
      else if parts[n - 2] !in buckets then None
      else Some(ResourceKey(parts[n - 2], parts[n - 1]))
    }

    /** The key under which a standalone resource is written. */
    function StandaloneKey(resource: ResourceKey): string {
      "/" + root + "/" + (resource.bucket + "/" + resource.id)
    }

    /** The resources the store can name: no key decodes to any other. */
    predicate Storable(resource: ResourceKey) {
      if resource.bucket == plugins then resource == PluginsKey()
      else if resource.bucket == secrets then
        var parts := Split(resource.id);
        |parts| == 2 && parts[0] != "" && parts[1] != "" && parts[0] != plugins
      else resource.bucket in buckets && Segment(resource.id)
    }

    // ----- agreement of the two decoders -----

    /** Both decoders name the same resource, or one of them refuses the key. */
    predicate Agree(prefix: string, key: string) {
      var managed := ManagedKey(prefix, key);
      managed.Some? ==>
        var parsed := ParseMutationKey(StoreMutationKey(key, managed.value));
        parsed.Some? ==> parsed == managed
    }

    lemma PluginsKeyParses()
      requires Valid()
      ensures ParseMutationKey("/" + root + "/" + plugins) == Some(PluginsKey())
    {
      SegmentsOfRooted(root, plugins);
      SplitSlashFree(plugins);
      assert KeySegments("/" + root + "/" + plugins) == [root, plugins];
    }

    /** An accepted key is the prefix and one to three segments of its own. */
    lemma ManagedSegments(prefix: string, key: string) returns (below: seq<string>)
      requires ManagedKey(prefix, key).Some?
      ensures ManagedParts(below) == ManagedKey(prefix, key)
      ensures 1 <= |below| <= 3 && forall i :: 0 <= i < |below| ==> Segment(below[i])
      ensures key == EffectivePrefix(prefix) + Join(below)
      ensures KeySegments(key) == PrefixSegments(prefix) + below
    {
      var p := EffectivePrefix(prefix);
      below := Split(key[|p|..]);
      SplitParts(key[|p|..]);
      assert key == p + key[|p|..];
      SegmentsBelowPrefix(prefix, key[|p|..]);
    }

    /** How the store reads the segments of an accepted key that is not the plugin list. */
    lemma ParsedBelow(above: seq<string>, below: seq<string>)
      requires Valid()
      requires ManagedParts(below).Some? && ManagedParts(below).value != PluginsKey()
      requires above != [] ==> above[|above| - 1] != secrets
      ensures var parsed := ParsedParts(above + below);
              parsed.Some? <==> "" !in above && below[|below| - 2] != plugins
      ensures var parsed := ParsedParts(above + below); parsed.Some? ==> parsed == ManagedParts(below)
    {
      var parts := above + below;
      var n := |parts|;
      assert parts[n - 1] == below[|below| - 1] && parts[n - 2] == below[|below| - 2];
      if |below| == 3 {
        assert parts[n - 3] == below[0];
      } else if n >= 3 {
        assert parts[n - 3] == above[|above| - 1];
      }
    }

    /**
     * For every prefix whose last segment is not the secrets bucket, whenever both decoders
     * accept a key they name the same resource.
     */
    lemma DecodersAgree(prefix: string, key: string)
      requires Valid()
      requires LastSegment(prefix) != secrets
      ensures Agree(prefix, key)
    {
      var managed := ManagedKey(prefix, key);
      if managed.Some? {
        if managed.value == PluginsKey() {
          PluginsKeyParses();
        } else {
          var below := ManagedSegments(prefix, key);
          ParsedBelow(PrefixSegments(prefix), below);
        }
      }
    }

    /** Under a prefix ending in the secrets bucket the store files every other resource as a secret. */
    lemma SecretsPrefixDisagrees(prefix: string, resource: ResourceKey)
      requires Valid()
      requires LastSegment(prefix) == secrets && CleanPrefix(prefix)
      requires resource.bucket in buckets - {secrets, plugins} && Segment(resource.id)
      ensures !Agree(prefix, EffectivePrefix(prefix) + (resource.bucket + "/" + resource.id))
    {
      var below := [resource.bucket, resource.id];
      var relative := resource.bucket + "/" + resource.id;
      var p := EffectivePrefix(prefix);
      var key := p + relative;
      SplitPair(resource.bucket, resource.id);
      NamedByKey(prefix, below, relative);
      assert ManagedKey(prefix, key) == Some(resource);
      SegmentsBelowPrefix(prefix, relative);
      var above := PrefixSegments(prefix);
      var parts := above + below;
      assert above[|above| - 1] == secrets;
      assert parts[|parts| - 3] == secrets;
    }

    /**
     * Exactness: a prefix is safe for every key iff its last segment is not the secrets bucket, or
     * the store refuses all of its keys anyway.
     */
    lemma AgreementExact(prefix: string)
      requires Valid()
      ensures (forall key :: Agree(prefix, key)) <==> LastSegment(prefix) != secrets || !CleanPrefix(prefix)
    {
      if LastSegment(prefix) == secrets && CleanPrefix(prefix) {
        var resource := ResourceKey(consumers, "1");
        SecretsPrefixDisagrees(prefix, resource);
        assert !Agree(prefix, EffectivePrefix(prefix) + (resource.bucket + "/" + resource.id));
      } else {
        forall key ensures Agree(prefix, key) {
          SafePrefixAgrees(prefix, key);
        }
      }
    }

    lemma SafePrefixAgrees(prefix: string, key: string)
      requires Valid() && (LastSegment(prefix) != secrets || !CleanPrefix(prefix))
      ensures Agree(prefix, key)
    {
      if LastSegment(prefix) != secrets {
        DecodersAgree(prefix, key);
      } else {
        UncleanPrefixRefused(prefix, key);
      }
    }

    lemma UncleanPrefixRefused(prefix: string, key: string)
      requires Valid() && !CleanPrefix(prefix)
      ensures Agree(prefix, key)
    {
      var managed := ManagedKey(prefix, key);
      if managed.Some? {
        if managed.value == PluginsKey() {
          PluginsKeyParses();
        } else {
          var below := ManagedSegments(prefix, key);
          assert "" in KeySegments(key);
        }
      }
    }

    /**
     * Which accepted etcd keys the store refuses: those under a prefix with an empty segment,
     * rows of the plugins bucket, and secrets of a manager called like that bucket.
     */
    lemma StoreAcceptsExactly(prefix: string, key: string)
      requires Valid()
      requires LastSegment(prefix) != secrets
      requires ManagedKey(prefix, key).Some?
      ensures var managed := ManagedKey(prefix, key).value;
              ParseMutationKey(StoreMutationKey(key, managed)).Some? <==>
              managed == PluginsKey() || (CleanPrefix(prefix) && Storable(managed))
    {
      var managed := ManagedKey(prefix, key).value;
      if managed == PluginsKey() {
        PluginsKeyParses();
      } else {
        var below := ManagedSegments(prefix, key);
        ParsedBelow(PrefixSegments(prefix), below);
        if |below| == 3 {
          SplitPair(below[1], below[2]);
        }
      }
    }

    /** Distinct keys have distinct resources, except the two spellings of the plugin list. */
    lemma ManagedPartsAlias(first: seq<string>, second: seq<string>)
      requires Valid()
      requires forall i :: 0 <= i < |first| ==> Segment(first[i])
      requires forall i :: 0 <= i < |second| ==> Segment(second[i])
      requires ManagedParts(first).Some? && ManagedParts(first) == ManagedParts(second)
      requires first != second
      ensures ManagedParts(first) == Some(PluginsKey())
      ensures (first == [plugins] && second == [plugins, plugins]) || (first == [plugins, plugins] && second == [plugins])
    {
      if |first| == 3 && |second| == 3 {
        SplitPair(first[1], first[2]);
        SplitPair(second[1], second[2]);
      }
      assert |first| == 2 ==> first == [first[0], first[1]];
      assert |second| == 2 ==> second == [second[0], second[1]];
    }

    /**
     * Two distinct etcd keys name the same resource only when one of them is the dynamic plugin
     * list and the other is the row of the plugins bucket called like the bucket.
     */
    lemma OnlyPluginsAlias(prefix: string, first: string, second: string)
      requires Valid()
      requires ManagedKey(prefix, first).Some?
      requires ManagedKey(prefix, first) == ManagedKey(prefix, second)
      requires first != second
      ensures ManagedKey(prefix, first) == Some(PluginsKey())
      ensures (first == EffectivePrefix(prefix) + plugins && second == PluginsAlias(prefix))
           || (second == EffectivePrefix(prefix) + plugins && first == PluginsAlias(prefix))
    {
      var below := ManagedSegments(prefix, first);
      var below' := ManagedSegments(prefix, second);
      ManagedPartsAlias(below, below');
      assert Join([plugins]) == plugins;
      assert [plugins, plugins][1..] == [plugins];
      assert Join([plugins, plugins]) == plugins + "/" + plugins;
    }

    /** The etcd key of a resource. */
    function EtcdKey(prefix: string, resource: ResourceKey): string {
      EffectivePrefix(prefix) + (if resource == PluginsKey() then plugins else resource.bucket + "/" + resource.id)
    }

    /** The id of a secret: its manager and its name. */
    predicate IsSecretId(id: string) {
      |Split(id)| == 2 && Split(id)[0] != "" && Split(id)[1] != ""
    }

    lemma NamedByKey(prefix: string, parts: seq<string>, relative: string)
      requires Split(relative) == parts && relative != ""
      ensures ManagedKey(prefix, EffectivePrefix(prefix) + relative) == ManagedParts(parts)
    {
      var p := EffectivePrefix(prefix);
      assert (p + relative)[|p|..] == relative;
    }

    /** Every resource that the store can name has its key in etcd, and the client accepts it. */
    lemma EveryResourceHasAKey(prefix: string, resource: ResourceKey)
      requires Valid() && Storable(resource)
      ensures ManagedKey(prefix, EtcdKey(prefix, resource)) == Some(resource)
    {
      if resource == PluginsKey() {
        SplitSlashFree(plugins);
        NamedByKey(prefix, [plugins], plugins);
      } else if resource.bucket == secrets {
        SecretHasAKey(prefix, resource.id);
      } else {
        SplitPair(resource.bucket, resource.id);
        NamedByKey(prefix, [resource.bucket, resource.id], resource.bucket + "/" + resource.id);
      }
    }

    lemma SecretHasAKey(prefix: string, id: string)
      requires Valid() && IsSecretId(id)
      ensures ManagedKey(prefix, EffectivePrefix(prefix) + (secrets + "/" + id)) == Some(ResourceKey(secrets, id))
    {
      var parts := Split(id);
      SplitParts(id);
      assert parts == [parts[0], parts[1]];
      assert parts[1..] == [parts[1]];
      assert id == parts[0] + "/" + parts[1];
      SplitConcat(secrets, id);
      SplitSlashFree(secrets);
      assert Split(secrets + "/" + id) == [secrets, parts[0], parts[1]];
      NamedByKey(prefix, [secrets, parts[0], parts[1]], secrets + "/" + id);
    }

    /** Which key names which resource, for every prefix. */
    lemma ManagedExactly(prefix: string, key: string, resource: ResourceKey)
      requires Valid()
      ensures ManagedKey(prefix, key) == Some(resource) <==>
              || (resource == PluginsKey() && key == EffectivePrefix(prefix) + plugins)
              || (resource.bucket in buckets - {secrets} && Segment(resource.id)
                  && key == EffectivePrefix(prefix) + (resource.bucket + "/" + resource.id))
              || (resource.bucket == secrets && IsSecretId(resource.id)
                  && key == EffectivePrefix(prefix) + (secrets + "/" + resource.id))
    {
      var p := EffectivePrefix(prefix);
      if ManagedKey(prefix, key) == Some(resource) {
        var below := ManagedSegments(prefix, key);
        ManagedShape(below, resource);
      } else {
        SplitSlashFree(plugins);
        NamedByKey(prefix, [plugins], plugins);
        if resource.bucket in buckets - {secrets} && Segment(resource.id) {
          SplitPair(resource.bucket, resource.id);
          NamedByKey(prefix, [resource.bucket, resource.id], resource.bucket + "/" + resource.id);
        } else if resource.bucket == secrets && IsSecretId(resource.id) {
          SecretHasAKey(prefix, resource.id);
        }
      }
    }

    lemma ManagedShape(below: seq<string>, resource: ResourceKey)
      requires Valid() && ManagedParts(below) == Some(resource) && forall i :: 0 <= i < |below| ==> Segment(below[i])
      ensures || (resource == PluginsKey() && Join(below) == plugins)
              || (resource.bucket in buckets - {secrets} && Segment(resource.id) && Join(below) == resource.bucket + "/" + resource.id)
              || (resource.bucket == secrets && IsSecretId(resource.id) && Join(below) == secrets + "/" + resource.id)
    {
      if |below| == 2 {
        assert Join(below) == below[0] + "/" + below[1];
      } else if |below| == 3 {
        SecretShape(below[0], below[1], below[2]);
        assert below == [below[0], below[1], below[2]];
      }
    }

    lemma SecretShape(bucket: string, manager: string, name: string)
      requires Segment(manager) && Segment(name)
      ensures Join([bucket, manager, name]) == bucket + "/" + (manager + "/" + name)
      ensures IsSecretId(manager + "/" + name)
    {
      assert [bucket, manager, name][1..] == [manager, name] && [manager, name][1..] == [name];
      assert Join([manager, name]) == manager + "/" + name;
      SplitPair(manager, name);
    }

    /** The key that is confused with the dynamic plugin list. */
    function PluginsAlias(prefix: string): string {
      EffectivePrefix(prefix) + (plugins + "/" + plugins)
    }

    /** Apart from one spelling of the plugin list, decoding is injective. */
    lemma ManagedKeyInjective(prefix: string, first: string, second: string)
      requires Valid()
      requires ManagedKey(prefix, first).Some?
      requires ManagedKey(prefix, first) == ManagedKey(prefix, second)
      requires first != PluginsAlias(prefix) && second != PluginsAlias(prefix)
      ensures first == second
    {
      if first != second {
        OnlyPluginsAlias(prefix, first, second);
      }
    }

    // ----- the standalone round trip -----

    /** Whatever the store decodes is a resource it can name. */
    lemma ParsedIsStorable(key: string)
      requires Valid()
      requires ParseMutationKey(key).Some?
      ensures Storable(ParseMutationKey(key).value)
    {
      var parts := KeySegments(key);
      var n := |parts|;
      SplitParts(key);
      assert forall part :: part in parts ==> part in Split(key);
      assert Segment(parts[n - 1]) && Segment(parts[n - 2]);
      if n >= 3 && parts[n - 3] == secrets {
        SplitPair(parts[n - 2], parts[n - 1]);
      }
    }

    lemma StandaloneSegments(resource: ResourceKey)
      requires Valid() && resource.bucket in buckets
      ensures KeySegments(StandaloneKey(resource)) == [root, resource.bucket] + Split(resource.id)
    {
      SegmentsOfRooted(root, resource.bucket + "/" + resource.id);
      SplitConcat(resource.bucket, resource.id);
      SplitSlashFree(resource.bucket);
    }

    /**
     * A standalone key decodes back to its resource exactly when the resource is storable:
     * a nonempty slash-free id, or manager/name for a secret.
     */
    lemma StandaloneRoundTrip(resource: ResourceKey)
      requires Valid()
      requires resource.bucket in buckets - {plugins}
      ensures ParseMutationKey(StandaloneKey(resource)) == Some(resource) <==> Storable(resource)
    {
      var key := StandaloneKey(resource);
      if ParseMutationKey(key) == Some(resource) {
        ParsedIsStorable(key);
      }
      if Storable(resource) {
        StandaloneSegments(resource);
        SplitParts(resource.id);
        if resource.bucket == secrets {
          var parts := Split(resource.id);
          assert parts == [parts[0], parts[1]];
          assert parts[1..] == [parts[1]];
          assert KeySegments(key) == [root, secrets, parts[0], parts[1]];
        } else {
          SplitSlashFree(resource.id);
          assert KeySegments(key) == [root, resource.bucket, resource.id];
        }
      }
    }

    /** An id holding a bucket's name addresses a row of that bucket instead of its own. */
    lemma SlashedIdCrossesBuckets(resource: ResourceKey, victim: ResourceKey)
      requires Valid()
      requires resource.bucket in buckets && victim.bucket in buckets - {plugins, secrets} && Segment(victim.id)
      requires exists head :: Segment(head) && head != secrets && resource.id == head + "/" + (victim.bucket + "/" + victim.id)
      ensures ParseMutationKey(StandaloneKey(resource)) == Some(victim)
      ensures victim != resource
    {
      var head :| Segment(head) && head != secrets && resource.id == head + "/" + (victim.bucket + "/" + victim.id);
      StandaloneSegments(resource);
      SplitConcat(head, victim.bucket + "/" + victim.id);
      SplitSlashFree(head);
      SplitPair(victim.bucket, victim.id);
      var parts := [root, resource.bucket, head, victim.bucket, victim.id];
      assert KeySegments(StandaloneKey(resource)) == parts;
      assert ParsedParts(parts) == Some(victim);
    }
  }
}
