/**
 * How a registered route is compared with a request: the linear matchers on hosts and paths, the
 * keys under which the dispatch index files hosts, and the conversion of a URI that decides which
 * dispatcher a route goes to.
 */
module RoutePatterns {
  import opened Basics
  import opened Keys

  // ----- strings -----

  /** The position of the first `c`, or the length. */
  function IndexOf(s: string, c: char): (i: nat)
    ensures i <= |s| && c !in s[..i]
    ensures i < |s| ==> s[i] == c
    ensures i == |s| <==> c !in s
  {
    if s == "" then 0
    else if s[0] == c then 0
    else
      assert s == [s[0]] + s[1..];
      var i := IndexOf(s[1..], c);
      assert s[..i + 1] == [s[0]] + s[1..][..i];
      i + 1
  }

  lemma {:induction false} FirstIndex(s: string, c: char, i: nat)
    requires i < |s| && s[i] == c && c !in s[..i]
    ensures IndexOf(s, c) == i
  {
    if i > 0 {
      assert s[0] in s[..i];
      assert s[1..][..i - 1] == s[1..i];
      assert forall x :: x in s[1..i] ==> x in s[..i];
      FirstIndex(s[1..], c, i - 1);
    }
  }

  predicate HasPrefix(s: string, prefix: string) {
    |prefix| <= |s| && s[..|prefix|] == prefix
  }

  predicate HasSuffix(s: string, suffix: string) {
    |suffix| <= |s| && s[|s| - |suffix|..] == suffix
  }

  /** ASCII lower case. */
  function Lower(s: string): string {
    seq(|s|, i requires 0 <= i < |s| => if 'A' <= s[i] <= 'Z' then s[i] + ('a' - 'A') else s[i])
  }

  // ----- hosts -----

  predicate HasWildcard(host: string) {
    '*' in host || '?' in host || '[' in host
  }

  function NormalizeRouteHost(host: string): string {
    Lower(if host != "" && host[|host| - 1] == '.' then host[..|host| - 1] else host)
  }

  /** The key under which the index files a route's wildcard host, if it has the form `*.suffix`. */
  function WildcardRouteHostKey(pattern: string): Option<string> {
    if |pattern| > 2 && pattern[0] == '*' && pattern[1] == '.' && !HasWildcard(pattern[2..]) then Some(pattern[1..]) else None
  }

  /** The key under which the index looks for a request's host, empty when there is none. */
  function WildcardHostKey(host: string): string {
    var dot := IndexOf(host, '.');
    if dot == 0 || dot >= |host| - 1 then "" else host[dot..]
  }

  predicate MatchOneLabelHostWildcard(pattern: string, host: string) {
    && |pattern| >= 2 && pattern[0] == '*' && pattern[1] == '.'
    && HasSuffix(host, pattern[1..])
    && var first := host[..|host| - (|pattern| - 1)];
       first != "" && '.' !in first
  }

  /** The linear scan's rank of a route for a host: 2 by name, 1 by wildcard, 0 for any host, -1 for none. */
  function RouteHostRank(patterns: seq<string>, host: string): int {
    if patterns == [] then 0 else HostsRank(patterns, host)
  }

  function HostsRank(patterns: seq<string>, host: string): int {
    if patterns == [] then -1
    else
      var pattern := NormalizeRouteHost(patterns[0]);
      var rest := HostsRank(patterns[1..], host);
      if pattern == host || rest == 2 then 2
      else if MatchOneLabelHostWildcard(pattern, host) || rest == 1 then 1
      else -1
  }

  /** A host the configuration accepts: literal, or one leading wildcard label. */
  predicate ValidHost(host: string) {
    HasWildcard(NormalizeRouteHost(host)) ==> WildcardRouteHostKey(NormalizeRouteHost(host)).Some?
  }

  predicate NamesExactly(patterns: seq<string>, host: string) {
    exists i :: 0 <= i < |patterns| && NormalizeRouteHost(patterns[i]) == host && !HasWildcard(host)
  }

  predicate NamesWildcard(patterns: seq<string>, key: string) {
    exists i :: 0 <= i < |patterns| && WildcardRouteHostKey(NormalizeRouteHost(patterns[i])) == Some(key)
  }

  /** The rank at which the index finds a route's hosts. */
  function IndexRank(patterns: seq<string>, host: string): int {
    if patterns == [] then 0
    else if NamesExactly(patterns, host) then 2
    else if WildcardHostKey(host) != "" && NamesWildcard(patterns, WildcardHostKey(host)) then 1
    else -1
  }

  /** A one-label wildcard matches exactly when the index files both under the same key. */
  lemma WildcardKeysMeet(pattern: string, host: string)
    requires WildcardRouteHostKey(pattern).Some?
    ensures MatchOneLabelHostWildcard(pattern, host) <==> WildcardHostKey(host) == WildcardRouteHostKey(pattern).value
  {
    var dot, suffix := IndexOf(host, '.'), pattern[1..];
    if MatchOneLabelHostWildcard(pattern, host) {
      var cut := |host| - |suffix|;
      assert host[cut] == suffix[0];
      FirstIndex(host, '.', cut);
    }
  }

  /** What the scan's loop over the hosts computes. */
  lemma {:induction false} HostsRankMeaning(patterns: seq<string>, host: string)
    ensures HostsRank(patterns, host) == 2 <==> exists i :: 0 <= i < |patterns| && NormalizeRouteHost(patterns[i]) == host
    ensures HostsRank(patterns, host) >= 1 <==>
            exists i :: 0 <= i < |patterns| && (NormalizeRouteHost(patterns[i]) == host || MatchOneLabelHostWildcard(NormalizeRouteHost(patterns[i]), host))
    ensures HostsRank(patterns, host) in {-1, 1, 2}
  {
    if patterns != [] {
      HostsRankMeaning(patterns[1..], host);
      assert forall i :: 0 <= i < |patterns[1..]| ==> patterns[1..][i] == patterns[i + 1];
      assert forall i :: 0 < i < |patterns| ==> patterns[i] == patterns[1..][i - 1];
    }
  }

  /**
   * The two ranks. They are equal for every request host that is not itself written as a wildcard;
   * for one that is, the scan calls a match by name what the index calls a match by wildcard.
   */
  lemma RanksRelated(patterns: seq<string>, host: string)
    requires forall i :: 0 <= i < |patterns| ==> ValidHost(patterns[i])
    ensures WildcardRouteHostKey(host).None? ==> IndexRank(patterns, host) == RouteHostRank(patterns, host)
    ensures WildcardRouteHostKey(host).Some? && patterns != [] ==>
              IndexRank(patterns, host) in {-1, 1} && (IndexRank(patterns, host) == 1 <==> RouteHostRank(patterns, host) == 2)
              && RouteHostRank(patterns, host) != 1
  {
    HostsRankMeaning(patterns, host);
    forall i | 0 <= i < |patterns|
      ensures NormalizeRouteHost(patterns[i]) == host && WildcardRouteHostKey(host).None? ==> NamesExactly(patterns, host)
      ensures MatchOneLabelHostWildcard(NormalizeRouteHost(patterns[i]), host) <==>
                WildcardHostKey(host) != "" && WildcardRouteHostKey(NormalizeRouteHost(patterns[i])) == Some(WildcardHostKey(host))
      ensures WildcardRouteHostKey(host).Some? ==>
                (MatchOneLabelHostWildcard(NormalizeRouteHost(patterns[i]), host) <==> NormalizeRouteHost(patterns[i]) == host)
    {
      HostOfPattern(patterns[i], host);
    }
  }

  lemma HostOfPattern(pattern: string, host: string)
    requires ValidHost(pattern)
    ensures var p := NormalizeRouteHost(pattern);
      && (p == host && WildcardRouteHostKey(host).None? ==> !HasWildcard(host))
      && (MatchOneLabelHostWildcard(p, host) <==> WildcardHostKey(host) != "" && WildcardRouteHostKey(p) == Some(WildcardHostKey(host)))
      && (WildcardRouteHostKey(host).Some? ==> (MatchOneLabelHostWildcard(p, host) <==> p == host))
  {
    var p := NormalizeRouteHost(pattern);
    if WildcardRouteHostKey(p).Some? {
      WildcardKeysMeet(p, host);
    }
    if WildcardRouteHostKey(host).Some? {
      assert IndexOf(host, '.') == 1;
      assert WildcardHostKey(host) == host[1..];
      assert host == "*" + host[1..];
      if WildcardRouteHostKey(p).Some? {
        assert p == "*" + p[1..];
      } else {
        assert host[0] in host;
      }
    }
  }

  // ----- paths -----

  predicate MatchesWildcardRoute(pattern: string, path: string)
    requires '*' in pattern
  {
    var star := IndexOf(pattern, '*');
    var prefix, suffix := pattern[..star], pattern[star + 1..];
    if suffix == "" then HasPrefix(path, prefix)
    else HasPrefix(path, prefix) && HasSuffix(path, suffix) && |path| > |prefix| + |suffix|
  }

  predicate SegmentMatches(pattern: string, segment: string) {
    if pattern != "" && pattern[0] == ':' then |pattern| > 1 && segment != "" else pattern == segment
  }

  predicate MatchesParameterizedRoute(pattern: string, path: string) {
    var patterns, segments := Split(pattern), Split(path);
    && |patterns| == |segments|
    && forall i :: 0 <= i < |patterns| ==> SegmentMatches(patterns[i], segments[i])
  }

  predicate MatchesRoutePath(pattern: string, path: string) {
    if ':' in pattern then MatchesParameterizedRoute(pattern, path)
    else if '*' !in pattern then pattern == path
    else MatchesWildcardRoute(pattern, path)
  }

  /** The pattern has a segment that is a single wildcard, and segments after it. */
  predicate IsEmbedded(pattern: string) {
    exists i :: 0 < i < |pattern| - 1 && pattern[i - 1] == '/' && pattern[i] == '*' && pattern[i + 1] == '/'
  }

  // ----- which dispatcher a URI goes to -----

  predicate IsLetter(c: char) {
    'A' <= c <= 'Z' || 'a' <= c <= 'z' || c == '_'
  }

  /** A segment `:name`, the name an identifier. */
  predicate IsParameter(segment: string) {
    && |segment| > 1 && segment[0] == ':' && IsLetter(segment[1])
    && forall i :: 1 < i < |segment| ==> IsLetter(segment[i]) || '0' <= segment[i] <= '9'
  }

  function ConvertSegment(segment: string): string {
    if ':' in segment && segment != "" then "{" + segment[1..] + "}" else segment
  }

  function ConvertSegments(segments: seq<string>): seq<string> {
    seq(|segments|, i requires 0 <= i < |segments| => ConvertSegment(segments[i]))
  }

  predicate ParametersOk(segments: seq<string>) {
    && (forall i :: 0 <= i < |segments| && ':' in segments[i] ==> IsParameter(segments[i]))
    && (forall i, j :: 0 <= i < j < |segments| && ':' in segments[i] ==> segments[i] != segments[j])
  }

  function Stars(s: string): nat {
    if s == "" then 0 else (if s[0] == '*' then 1 else 0) + Stars(s[1..])
  }

  /** The mux pattern of a URI, under which its dispatcher is registered; none for an unsupported URI. */
  function ConvertURI(uri: string): Option<string> {
    if uri == "" || uri[0] != '/' || '{' in uri || '}' in uri then None
    else if ':' in uri then
      if '*' in uri then None
      else if !ParametersOk(Split(uri)) then None
      else Some(Join(ConvertSegments(Split(uri))))
    else if '*' !in uri then Some(uri)
    else if Stars(uri) != 1 then None
    else if uri[|uri| - 1] == '*' then Some(uri)
    else if !IsEmbedded(uri) then None
    else Some(uri[..IndexOf(uri, '*') + 1])
  }

  /** The dispatcher's prefix: its mux pattern without a final `*`. */
  function PrefixOf(converted: string): string {
    if converted != "" && converted[|converted| - 1] == '*' then converted[..|converted| - 1] else converted
  }

  lemma {:induction false} StarsNone(s: string)
    ensures Stars(s) == 0 <==> '*' !in s
  {
    if s != "" {
      StarsNone(s[1..]);
      assert s == [s[0]] + s[1..];
    }
  }

  lemma {:induction false} StarsOne(s: string, i: nat)
    requires Stars(s) == 1 && i < |s| && s[i] == '*'
    ensures '*' !in s[i + 1..] && IndexOf(s, '*') == i
  {
    StarsNone(s[1..]);
    if i > 0 {
      StarsOne(s[1..], i - 1);
      assert s[1..][i..] == s[i + 1..];
      assert s[1..][i - 1] == s[i];
      assert s[i] in s[1..];
    }
  }

  /** An embedded URI splits around its only `*`, and its dispatcher's prefix is the part before it. */
  lemma EmbeddedShape(uri: string) returns (suffix: string)
    requires ConvertURI(uri).Some? && IsEmbedded(uri)
    ensures var prefix := PrefixOf(ConvertURI(uri).value);
      && ConvertURI(uri).value == prefix + "*"
      && uri == prefix + "*" + suffix && suffix != "" && suffix[0] == '/'
      && '*' !in prefix && ':' !in uri
      && suffix == uri[IndexOf(uri, '*') + 1..]
  {
    var i :| 0 < i < |uri| - 1 && uri[i - 1] == '/' && uri[i] == '*' && uri[i + 1] == '/';
    assert uri[i] in uri;
    StarsOne(uri, i);
    suffix := uri[i + 1..];
    assert uri[|uri| - 1] in uri[i + 1..];
    assert ConvertURI(uri) == Some(uri[..i + 1]);
    assert PrefixOf(uri[..i + 1]) == uri[..i];
    assert uri == uri[..i] + "*" + suffix;
  }

  /** A `*` elsewhere than at the end makes the URI embedded. */
  lemma PlainShape(uri: string)
    requires ConvertURI(uri).Some? && !IsEmbedded(uri)
    ensures ':' !in uri ==> ConvertURI(uri).value == uri
    ensures '*' in uri ==> ':' !in uri && PrefixOf(uri) + "*" == uri
  {
  }

  // ----- two plain URIs with one dispatcher are one URI -----

  lemma {:induction false} SplitOfJoin(parts: seq<string>)
    requires |parts| >= 1 && forall i :: 0 <= i < |parts| ==> SlashFree(parts[i])
    ensures Split(Join(parts)) == parts
  {
    SplitSlashFree(parts[0]);
    if |parts| > 1 {
      SplitOfJoin(parts[1..]);
      SplitConcat(parts[0], Join(parts[1..]));
    } else {
      assert parts == [parts[0]];
    }
  }

  lemma {:induction false} CharsOfParts(s: string, c: char)
    requires c != '/'
    ensures c in s <==> exists i :: 0 <= i < |Split(s)| && c in Split(s)[i]
  {
    if s != "" {
      CharsOfParts(s[1..], c);
      var rest := Split(s[1..]);
      assert s == [s[0]] + s[1..];
      if s[0] == '/' {
        assert forall i :: 0 <= i < |rest| ==> Split(s)[i + 1] == rest[i];
        assert c in s[1..] ==> exists i :: 0 <= i < |Split(s)| && c in Split(s)[i];
      } else {
        assert Split(s)[0] == [s[0]] + rest[0];
        assert forall i :: 1 <= i < |rest| ==> Split(s)[i] == rest[i];
      }
    }
  }

  lemma ParametersSplit(uri: string)
    requires ConvertURI(uri).Some? && ':' in uri
    ensures Split(ConvertURI(uri).value) == ConvertSegments(Split(uri))
  {
    var segments := Split(uri);
    SplitParts(uri);
    var converted := ConvertSegments(segments);
    forall i | 0 <= i < |converted|
      ensures SlashFree(converted[i])
    {
      assert segments[i] in segments;
    }
    SplitOfJoin(converted);
  }

  lemma ConvertSegmentInjective(a: string, b: string)
    requires ':' in a ==> IsParameter(a)
    requires ':' in b ==> IsParameter(b)
    requires '{' !in a && '{' !in b
    requires ConvertSegment(a) == ConvertSegment(b)
    ensures a == b
  {
    assert ('{' in ConvertSegment(a) <==> ':' in a) && ('{' in ConvertSegment(b) <==> ':' in b) by {
      assert ':' in a ==> ConvertSegment(a)[0] == '{';
      assert ':' in b ==> ConvertSegment(b)[0] == '{';
    }
    if ':' in a {
      assert a == ":" + a[1..] && b == ":" + b[1..];
      assert ConvertSegment(a)[1..|a|] == a[1..] && ConvertSegment(b)[1..|b|] == b[1..];
    }
  }

  lemma PlainSegments(uri: string)
    requires ConvertURI(uri).Some? && !IsEmbedded(uri)
    ensures Split(ConvertURI(uri).value) == ConvertSegments(Split(uri))
    ensures forall i :: 0 <= i < |Split(uri)| ==> '{' !in Split(uri)[i] && (':' in Split(uri)[i] ==> IsParameter(Split(uri)[i]))
  {
    CharsOfParts(uri, '{');
    CharsOfParts(uri, ':');
    if ':' in uri {
      ParametersSplit(uri);
    } else {
      PlainShape(uri);
      assert ConvertSegments(Split(uri)) == Split(uri);
    }
  }

  /** Within one dispatcher all routes without an embedded wildcard have the same pattern. */
  lemma PlainPatternUnique(first: string, second: string)
    requires ConvertURI(first).Some? && ConvertURI(first) == ConvertURI(second) && !IsEmbedded(first) && !IsEmbedded(second)
    ensures first == second
  {
    PlainSegments(first);
    PlainSegments(second);
    var a, b := Split(first), Split(second);
    assert |a| == |ConvertSegments(a)| == |b|;
    forall i | 0 <= i < |a|
      ensures a[i] == b[i]
    {
      assert ConvertSegments(a)[i] == ConvertSegment(a[i]);
      assert ConvertSegments(b)[i] == ConvertSegment(b[i]);
      ConvertSegmentInjective(a[i], b[i]);
    }
    assert a == b;
    SplitParts(first);
    SplitParts(second);
  }

  /** A URI with parameters has no wildcard, and neither has its mux pattern. */
  lemma ColonsAndStars(uri: string)
    requires ConvertURI(uri).Some? && ':' in uri
    ensures '*' !in ConvertURI(uri).value && !IsEmbedded(uri)
  {
    ParametersSplit(uri);
    CharsOfParts(uri, '*');
    CharsOfParts(ConvertURI(uri).value, '*');
    var segments, converted := Split(uri), Split(ConvertURI(uri).value);
    forall i | 0 <= i < |converted|
      ensures '*' !in converted[i]
    {
      assert converted[i] == ConvertSegment(segments[i]);
    }
  }

  /** A plain route beside an embedded one matches exactly the paths below their common prefix. */
  lemma PlainBesideEmbedded(plain: string, embedded: string, path: string)
    requires ConvertURI(plain).Some? && ConvertURI(plain) == ConvertURI(embedded) && !IsEmbedded(plain) && IsEmbedded(embedded)
    ensures MatchesRoutePath(plain, path) <==> HasPrefix(path, PrefixOf(ConvertURI(plain).value))
  {
    var suffix := EmbeddedShape(embedded);
    var base := ConvertURI(plain).value;
    var prefix := PrefixOf(base);
    assert base[|prefix|] == '*';
    if ':' in plain {
      ColonsAndStars(plain);
    }
    PlainShape(plain);
    assert plain[..|prefix|] == prefix;
    FirstIndex(plain, '*', |prefix|);
  }

  // ----- the paths and hosts that patterns stand for -----

  /** The segments of a URI with a value in place of each parameter. */
  function Filled(segments: seq<string>, values: seq<string>): seq<string>
    requires |values| == |segments|
  {
    seq(|segments|, i requires 0 <= i < |segments| => if ':' in segments[i] then values[i] else segments[i])
  }

  ghost predicate BuildsWith(uri: string, values: seq<string>, path: string) {
    && |values| == |Split(uri)| && (forall i :: 0 <= i < |values| ==> values[i] != "" && SlashFree(values[i]))
    && path == Join(Filled(Split(uri), values))
  }

  /** The wildcard of the URI stands for the middle; it stands for nothing only at the end. */
  ghost predicate BuildsAround(uri: string, middle: string, path: string)
    requires '*' in uri
  {
    var star := IndexOf(uri, '*');
    path == uri[..star] + middle + uri[star + 1..] && (star + 1 < |uri| ==> middle != "")
  }

  /** The path is the URI with its parameters and wildcard replaced. */
  ghost predicate Builds(uri: string, path: string) {
    if ':' in uri then exists values :: BuildsWith(uri, values, path)
    else if '*' in uri then exists middle :: BuildsAround(uri, middle, path)
    else path == uri
  }

  /** One wildcard, at the end of the URI or as a segment of its own that others follow. */
  ghost predicate HasOneStar(uri: string, prefix: string, suffix: string) {
    && uri == prefix + "*" + suffix && '*' !in prefix && '*' !in suffix
    && (suffix != "" ==> suffix[0] == '/' && prefix != "" && prefix[|prefix| - 1] == '/')
  }

  /** An identifier: a letter or underscore, then letters, digits and underscores. */
  predicate IsIdentifier(name: string) {
    name != "" && IsNameCharacter(name[0]) && !IsDigit(name[0]) && forall i :: 0 <= i < |name| ==> IsNameCharacter(name[i])
  }

  predicate IsDigit(c: char) {
    48 <= c as int <= 57
  }

  predicate IsNameCharacter(c: char) {
    IsDigit(c) || 65 <= c as int <= 90 || 97 <= c as int <= 122 || c as int == 95
  }

  /** A colon stands only before the name of a parameter, and no two parameters have one name. */
  ghost predicate HasParameters(segments: seq<string>) {
    && (forall i :: 0 <= i < |segments| && ':' in segments[i] ==> segments[i][0] == ':' && IsIdentifier(segments[i][1..]))
    && (forall i, j :: 0 <= i < j < |segments| && ':' in segments[i] && ':' in segments[j] ==> segments[i][1..] != segments[j][1..])
  }

  lemma ParameterExactly(segment: string)
    requires ':' in segment
    ensures IsParameter(segment) <==> segment[0] == ':' && IsIdentifier(segment[1..])
  {
    if |segment| > 1 {
      var name := segment[1..];
      assert forall i :: 0 <= i < |name| ==> name[i] == segment[i + 1];
      assert forall i :: 1 <= i < |segment| ==> segment[i] == name[i - 1];
      if IsIdentifier(name) {
        assert name[0] == segment[1];
      }
    }
  }

  lemma ParametersExactly(segments: seq<string>)
    ensures ParametersOk(segments) <==> HasParameters(segments)
  {
    forall i | 0 <= i < |segments| && ':' in segments[i]
      ensures IsParameter(segments[i]) <==> segments[i][0] == ':' && IsIdentifier(segments[i][1..])
    {
      ParameterExactly(segments[i]);
    }
    if forall i :: 0 <= i < |segments| && ':' in segments[i] ==> IsParameter(segments[i]) {
      forall i, j | 0 <= i < j < |segments| && ':' in segments[i] && ':' in segments[j]
        ensures segments[i] == segments[j] <==> segments[i][1..] == segments[j][1..]
      {
        assert segments[i] == ":" + segments[i][1..] && segments[j] == ":" + segments[j][1..];
      }
    }
  }

  /** The URIs that can be routed: absolute, without braces, with parameters or one wildcard but not both. */
  ghost predicate IsSupported(uri: string) {
    && uri != "" && uri[0] == '/' && '{' !in uri && '}' !in uri
    && (':' in uri ==> '*' !in uri && HasParameters(Split(uri)))
    && (':' !in uri && '*' in uri ==> exists prefix, suffix :: HasOneStar(uri, prefix, suffix))
  }

  lemma {:induction false} OneStar(prefix: string, suffix: string)
    requires '*' !in prefix && '*' !in suffix
    ensures Stars(prefix + "*" + suffix) == 1
  {
    var s := prefix + "*" + suffix;
    if prefix == "" {
      assert s[0] == '*' && s[1..] == suffix;
      StarsNone(suffix);
    } else {
      assert s[0] == prefix[0] && s[1..] == prefix[1..] + "*" + suffix;
      assert s[0] in prefix;
      OneStar(prefix[1..], suffix);
    }
  }

  lemma StarredIsSupported(uri: string, prefix: string, suffix: string)
    requires HasOneStar(uri, prefix, suffix)
    ensures Stars(uri) == 1 && IndexOf(uri, '*') == |prefix|
    ensures uri[|uri| - 1] == '*' || IsEmbedded(uri)
    ensures suffix != "" <==> uri[|uri| - 1] != '*'
  {
    OneStar(prefix, suffix);
    var i := |prefix|;
    assert uri[..i] == prefix && uri[i] == '*';
    FirstIndex(uri, '*', i);
    if suffix != "" {
      assert uri[i - 1] == '/' && uri[i + 1] == '/';
      assert uri[|uri| - 1] in suffix;
    }
  }

  lemma EmbeddedIsStarred(uri: string) returns (prefix: string, suffix: string)
    requires ConvertURI(uri).Some? && IsEmbedded(uri)
    ensures HasOneStar(uri, prefix, suffix)
  {
    var i :| 0 < i < |uri| - 1 && uri[i - 1] == '/' && uri[i] == '*' && uri[i + 1] == '/';
    assert uri[i] in uri;
    StarsOne(uri, i);
    prefix, suffix := uri[..i], uri[i + 1..];
    assert uri == prefix + [uri[i]] + suffix;
    assert suffix[0] == uri[i + 1] && prefix[|prefix| - 1] == uri[i - 1];
  }

  lemma FinalIsStarred(uri: string)
    requires Stars(uri) == 1 && uri[|uri| - 1] == '*'
    ensures HasOneStar(uri, uri[..|uri| - 1], "")
  {
    var i := |uri| - 1;
    StarsOne(uri, i);
    assert uri == uri[..i] + [uri[i]] + "";
  }

  lemma SupportedIsStarred(uri: string) returns (prefix: string, suffix: string)
    requires ConvertURI(uri).Some? && ':' !in uri && '*' in uri
    ensures HasOneStar(uri, prefix, suffix)
  {
    if IsEmbedded(uri) {
      prefix, suffix := EmbeddedIsStarred(uri);
    } else {
      FinalIsStarred(uri);
      prefix, suffix := uri[..|uri| - 1], "";
    }
  }

  /** Exactly the supported URIs have a mux pattern: their own, up to the wildcard, or with named parameters in braces. */
  lemma SupportedExactly(uri: string)
    ensures ConvertURI(uri).Some? <==> IsSupported(uri)
    ensures IsSupported(uri) && ':' !in uri ==>
              ConvertURI(uri).value == if '*' in uri then uri[..IndexOf(uri, '*') + 1] else uri
    ensures IsSupported(uri) && ':' in uri ==> Split(ConvertURI(uri).value) == ConvertSegments(Split(uri))
  {
    ParametersExactly(Split(uri));
    if ConvertURI(uri).Some? && ':' !in uri && '*' in uri {
      var prefix, suffix := SupportedIsStarred(uri);
    }
    if IsSupported(uri) && ':' !in uri && '*' in uri {
      var prefix, suffix :| HasOneStar(uri, prefix, suffix);
      StarredIsSupported(uri, prefix, suffix);
      assert suffix == "" ==> uri[..|prefix| + 1] == uri;
    }
    if IsSupported(uri) && ':' in uri {
      ParametersSplit(uri);
    }
  }

  lemma ParameterSegments(uri: string, i: nat)
    requires ConvertURI(uri).Some? && ':' in uri && i < |Split(uri)|
    ensures var segment := Split(uri)[i];
      SlashFree(segment) && (':' in segment <==> segment != "" && segment[0] == ':') && (':' in segment ==> |segment| > 1)
  {
    SplitParts(uri);
    assert Split(uri)[i] in Split(uri);
    assert ':' in Split(uri)[i] ==> IsParameter(Split(uri)[i]);
  }

  lemma BuiltMatches(uri: string, values: seq<string>, path: string)
    requires ConvertURI(uri).Some? && ':' in uri && BuildsWith(uri, values, path)
    ensures MatchesRoutePath(uri, path)
  {
    var segments := Split(uri);
    var filled := Filled(segments, values);
    SplitParts(uri);
    forall i | 0 <= i < |segments|
      ensures SlashFree(filled[i]) && SegmentMatches(segments[i], filled[i])
    {
      ParameterSegments(uri, i);
    }
    SplitOfJoin(filled);
  }

  lemma MatchIsBuilt(uri: string, path: string) returns (values: seq<string>)
    requires ConvertURI(uri).Some? && ':' in uri && MatchesRoutePath(uri, path)
    ensures BuildsWith(uri, values, path)
  {
    var segments, parts := Split(uri), Split(path);
    SplitParts(path);
    values := seq(|segments|, i requires 0 <= i < |segments| => if ':' in segments[i] then parts[i] else "x");
    forall i | 0 <= i < |segments|
      ensures Filled(segments, values)[i] == parts[i] && values[i] != "" && SlashFree(values[i])
    {
      ParameterSegments(uri, i);
      assert SegmentMatches(segments[i], parts[i]);
      assert parts[i] in parts;
    }
    assert Filled(segments, values) == parts;
  }

  lemma AroundMatches(uri: string, middle: string, path: string)
    requires '*' in uri && ':' !in uri && BuildsAround(uri, middle, path)
    ensures MatchesRoutePath(uri, path)
  {
    var star := IndexOf(uri, '*');
    assert path[..star] == uri[..star];
    assert path[|path| - |uri[star + 1..]|..] == uri[star + 1..];
  }

  lemma MatchIsAround(uri: string, path: string) returns (middle: string)
    requires '*' in uri && ':' !in uri && MatchesRoutePath(uri, path)
    ensures BuildsAround(uri, middle, path)
  {
    var star := IndexOf(uri, '*');
    var suffix := uri[star + 1..];
    middle := path[star..|path| - |suffix|];
    assert path == path[..star] + middle + path[|path| - |suffix|..];
  }

  /** A supported URI matches exactly the paths that replacing its parameters and wildcard gives. */
  lemma MatchesExactlyBuilt(uri: string, path: string)
    requires ConvertURI(uri).Some?
    ensures MatchesRoutePath(uri, path) <==> Builds(uri, path)
  {
    if ':' in uri {
      if MatchesRoutePath(uri, path) {
        var values := MatchIsBuilt(uri, path);
      } else if values :| BuildsWith(uri, values, path) {
        BuiltMatches(uri, values, path);
      }
    } else if '*' in uri {
      if MatchesRoutePath(uri, path) {
        var middle := MatchIsAround(uri, path);
      } else if middle :| BuildsAround(uri, middle, path) {
        AroundMatches(uri, middle, path);
      }
    }
  }

  /** The same letters, in any case. */
  ghost predicate SameLetters(a: string, b: string) {
    |a| == |b| && forall i :: 0 <= i < |a| ==> SameLetter(a[i], b[i])
  }

  predicate SameLetter(a: char, b: char) {
    a == b || ('A' <= a <= 'Z' && b == a + ('a' - 'A')) || ('A' <= b <= 'Z' && a == b + ('a' - 'A'))
  }

  predicate IsLowerCase(host: string) {
    forall i :: 0 <= i < |host| ==> !('A' <= host[i] <= 'Z')
  }

  /** A host by name: in any case, with or without a final dot. */
  ghost predicate IsNamed(pattern: string, host: string) {
    if pattern != "" && pattern[|pattern| - 1] == '.' then SameLetters(pattern, host + ".") else SameLetters(pattern, host)
  }

  ghost predicate HasLabel(host: string, first: string, rest: string) {
    first != "" && '.' !in first && host == first + "." + rest
  }

  /** A host by wildcard: one label of it stands for the `*`. */
  ghost predicate IsCovered(pattern: string, host: string) {
    exists first, rest :: HasLabel(host, first, rest) && IsNamed(pattern, "*." + rest)
  }

  lemma LowerMeets(a: string, b: string)
    requires IsLowerCase(b)
    ensures Lower(a) == b <==> SameLetters(a, b)
  {
    if Lower(a) == b {
      forall i | 0 <= i < |a|
        ensures SameLetter(a[i], b[i])
      {
        assert Lower(a)[i] == b[i];
      }
    }
    if SameLetters(a, b) {
      forall i | 0 <= i < |a|
        ensures Lower(a)[i] == b[i]
      {
        assert SameLetter(a[i], b[i]);
      }
    }
  }

  lemma NamedExactly(pattern: string, host: string)
    requires IsLowerCase(host)
    ensures NormalizeRouteHost(pattern) == host <==> IsNamed(pattern, host)
  {
    if pattern != "" && pattern[|pattern| - 1] == '.' {
      var name := pattern[..|pattern| - 1];
      LowerMeets(name, host);
      assert pattern == name + ".";
      assert SameLetters(name, host) <==> SameLetters(name + ".", host + ".") by {
        if SameLetters(name + ".", host + ".") {
          forall i | 0 <= i < |name|
            ensures SameLetter(name[i], host[i])
          {
            assert SameLetter((name + ".")[i], (host + ".")[i]);
          }
        }
      }
    } else {
      LowerMeets(pattern, host);
    }
  }

  lemma OneLabelSplits(pattern: string, host: string) returns (first: string, rest: string)
    requires MatchOneLabelHostWildcard(pattern, host)
    ensures HasLabel(host, first, rest) && pattern == "*." + rest
  {
    var cut := |host| - (|pattern| - 1);
    first, rest := host[..cut], host[cut + 1..];
    assert host[cut..] == pattern[1..];
    assert host[cut] == pattern[1..][0];
    assert host[cut + 1..] == host[cut..][1..];
    assert pattern == pattern[..2] + pattern[1..][1..];
    assert host == first + [host[cut]] + rest;
  }

  lemma LabelMatches(first: string, rest: string, host: string)
    requires HasLabel(host, first, rest)
    ensures MatchOneLabelHostWildcard("*." + rest, host)
  {
    var suffix := ("*." + rest)[1..];
    assert suffix == "." + rest;
    assert host == first + suffix;
    assert host[|host| - |suffix|..] == suffix && host[..|host| - |suffix|] == first;
  }

  lemma RestIsLowerCase(host: string, first: string, rest: string)
    requires IsLowerCase(host) && HasLabel(host, first, rest)
    ensures IsLowerCase("*." + rest)
  {
    assert forall i :: 0 <= i < |rest| ==> rest[i] == host[|first| + 1 + i];
  }

  lemma CoveredExactly(pattern: string, host: string)
    requires IsLowerCase(host)
    ensures MatchOneLabelHostWildcard(NormalizeRouteHost(pattern), host) <==> IsCovered(pattern, host)
  {
    if MatchOneLabelHostWildcard(NormalizeRouteHost(pattern), host) {
      var first, rest := OneLabelSplits(NormalizeRouteHost(pattern), host);
      RestIsLowerCase(host, first, rest);
      NamedExactly(pattern, "*." + rest);
    } else if first, rest :| HasLabel(host, first, rest) && IsNamed(pattern, "*." + rest) {
      RestIsLowerCase(host, first, rest);
      NamedExactly(pattern, "*." + rest);
      LabelMatches(first, rest, host);
    }
  }

  /** A name without the characters of a glob. */
  predicate IsPlain(host: string) {
    forall i :: 0 <= i < |host| ==> host[i] != '*' && host[i] != '?' && host[i] != '['
  }

  /** Which hosts the configuration accepts: plain names, and a wildcard label before a plain name. */
  lemma ValidHostsExactly(host: string)
    ensures ValidHost(host) <==>
            var name := NormalizeRouteHost(host);
            IsPlain(name) || (|name| > 2 && name[..2] == "*." && IsPlain(name[2..]))
  {
    var name := NormalizeRouteHost(host);
    PlainMeaning(name);
    if |name| > 2 {
      PlainMeaning(name[2..]);
      assert name[..2] == [name[0], name[1]];
    }
  }

  lemma PlainMeaning(host: string)
    ensures IsPlain(host) <==> !HasWildcard(host)
  {
  }

  /** The hosts of a route admit a request's host: there are none, or one is it by name or by wildcard. */
  ghost predicate Admits(patterns: seq<string>, host: string) {
    patterns == [] || exists i :: 0 <= i < |patterns| && (IsNamed(patterns[i], host) || IsCovered(patterns[i], host))
  }

  /** The scan's rank in terms of names and labels. */
  lemma RankExactly(patterns: seq<string>, host: string)
    requires IsLowerCase(host)
    ensures RouteHostRank(patterns, host) >= 0 <==> Admits(patterns, host)
    ensures patterns != [] ==> (RouteHostRank(patterns, host) == 2 <==> exists i :: 0 <= i < |patterns| && IsNamed(patterns[i], host))
    ensures patterns == [] <==> RouteHostRank(patterns, host) == 0
  {
    HostsRankMeaning(patterns, host);
    forall i | 0 <= i < |patterns|
      ensures NormalizeRouteHost(patterns[i]) == host <==> IsNamed(patterns[i], host)
      ensures MatchOneLabelHostWildcard(NormalizeRouteHost(patterns[i]), host) <==> IsCovered(patterns[i], host)
    {
      NamedExactly(patterns[i], host);
      CoveredExactly(patterns[i], host);
    }
  }
}
