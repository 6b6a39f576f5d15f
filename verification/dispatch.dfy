/**
 * The host, path and method dispatch index. Nested maps answer each request in place of a linear
 * scan over the registered routes; the contracts here are stated against that scan.
 */
module Dispatch {
  import opened Basics
  import opened Keys
  import opened Ordering
  import opened RoutePatterns

  /** The method of a route registered without methods. */
  const ANY: string := "*"

  datatype Route = Route(
    httpMethod: string,
    pattern: string,
    embedded: bool,
    hosts: seq<string>,
    handler: nat,
    registrationIndex: nat
  )

  /** `host` is the request's host name, without port or final dot, in lower case. */
  datatype Request = Request(host: string, path: string, httpMethod: string)

  datatype Answer = Served(route: Route) | MethodNotAllowed(allow: seq<string>) | NotFound

  // ----- the linear scan -----

  predicate MatchesPlace(r: Route, q: Request) {
    MatchesRoutePath(r.pattern, q.path) && RouteHostRank(r.hosts, q.host) >= 0
  }

  predicate MatchesMethod(r: Route, q: Request) {
    r.httpMethod == ANY || r.httpMethod == q.httpMethod
  }

  predicate Matches(r: Route, q: Request) {
    MatchesPlace(r, q) && MatchesMethod(r, q)
  }

  /** Whether a scan ranks `b` at least as high as `a`: embedded pattern, host, method, newest. */
  predicate NoBetter(a: Route, b: Route, rankA: int, rankB: int) {
    if a.embedded != b.embedded then b.embedded
    else if rankA != rankB then rankA < rankB
    else if (a.httpMethod == ANY) != (b.httpMethod == ANY) then a.httpMethod == ANY
    else a.registrationIndex <= b.registrationIndex
  }

  /** The route a linear scan keeps. */
  ghost predicate ScanPicks(routes: set<Route>, q: Request, best: Route) {
    && best in routes && Matches(best, q)
    && forall r :: r in routes && Matches(r, q) ==>
         NoBetter(r, best, RouteHostRank(r.hosts, q.host), RouteHostRank(best.hosts, q.host))
  }

  /** What a linear scan over the routes would answer. */
  ghost predicate ScanAnswers(routes: set<Route>, q: Request, answer: Answer) {
    match answer
    case Served(best) => ScanPicks(routes, q, best)
    case MethodNotAllowed(allow) =>
      && (forall r :: r in routes ==> !Matches(r, q))
      && (exists r :: r in routes && MatchesPlace(r, q))
      && allow != [] && Sorted(allow)
      && (forall m :: m in allow <==> exists r :: r in routes && MatchesPlace(r, q) && r.httpMethod == m)
    case NotFound => forall r :: r in routes ==> !MatchesPlace(r, q)
  }

  // ----- one host's routes -----

  /** The routes of one host: the newest for each method, the newest for any, and the methods in order. */
  datatype HostDecision = HostDecision(exact: map<string, Route>, any: Option<Route>, allowed: seq<string>)

  const Undecided := HostDecision(map[], None, [])

  function ExactAt(d: HostDecision, httpMethod: string): Option<Route> {
    if httpMethod in d.exact then Some(d.exact[httpMethod]) else None
  }

  function WithMethod(routes: set<Route>, httpMethod: string): set<Route> {
    set r | r in routes && r.httpMethod == httpMethod
  }

  /** The newest route of a set, and none exactly when there is none. */
  ghost predicate IsNewest(c: Option<Route>, routes: set<Route>) {
    match c
    case None => routes == {}
    case Some(r) => r in routes && forall x :: x in routes ==> x.registrationIndex <= r.registrationIndex
  }

  ghost predicate Decides(d: HostDecision, routes: set<Route>) {
    && IsNewest(d.any, WithMethod(routes, ANY))
    && ANY !in d.exact
    && (forall m :: m != ANY ==> IsNewest(ExactAt(d, m), WithMethod(routes, m)))
    && Sorted(d.allowed) && (forall m :: m in d.allowed <==> m in d.exact)
  }

  predicate HasRoutes(d: HostDecision) {
    d.any.Some? || d.exact != map[]
  }

  lemma HasRoutesMeaning(d: HostDecision, routes: set<Route>)
    requires Decides(d, routes)
    ensures HasRoutes(d) <==> routes != {}
  {
    assert forall r :: r in routes ==> r in WithMethod(routes, r.httpMethod);
    if d.any.Some? {
      assert d.any.value in WithMethod(routes, ANY);
    } else if d.exact != map[] {
      var m :| m in d.exact;
      assert d.exact[m] in WithMethod(routes, m);
    }
  }

  function Newer(c: Option<Route>, route: Route): Option<Route> {
    if c.None? || c.value.registrationIndex < route.registrationIndex then Some(route) else c
  }

  lemma NewerIsNewest(c: Option<Route>, routes: set<Route>, route: Route)
    requires IsNewest(c, WithMethod(routes, route.httpMethod))
    ensures IsNewest(Newer(c, route), WithMethod(routes + {route}, route.httpMethod))
  {
    assert WithMethod(routes + {route}, route.httpMethod) == WithMethod(routes, route.httpMethod) + {route};
  }

  lemma OtherMethod(routes: set<Route>, route: Route, m: string)
    requires m != route.httpMethod
    ensures WithMethod(routes + {route}, m) == WithMethod(routes, m)
  {
  }

  method AddToHost(d: HostDecision, route: Route, ghost routes: set<Route>) returns (r: HostDecision)
    requires Decides(d, routes)
    ensures Decides(r, routes + {route})
  {
    if route.httpMethod == ANY {
      NewerIsNewest(d.any, routes, route);
      r := d.(any := Newer(d.any, route));
    } else {
      NewerIsNewest(ExactAt(d, route.httpMethod), routes, route);
      var allowed := d.allowed;
      if route.httpMethod !in d.exact {
        allowed := Insert(d.allowed, route.httpMethod);
      }
      r := d.(exact := d.exact[route.httpMethod := Newer(ExactAt(d, route.httpMethod), route).value], allowed := allowed);
    }
    forall m | m != route.httpMethod
      ensures WithMethod(routes + {route}, m) == WithMethod(routes, m)
    {
      OtherMethod(routes, route, m);
    }
  }

  // ----- one path's routes -----

  datatype DecisionIndex = DecisionIndex(
    pattern: string,
    hostless: HostDecision,
    exactHosts: map<string, HostDecision>,
    wildcardHosts: map<string, HostDecision>
  )

  function DecisionAt(decisions: map<string, HostDecision>, key: string): HostDecision {
    if key in decisions then decisions[key] else Undecided
  }

  ghost function Hostless(routes: set<Route>): set<Route> {
    set r | r in routes && r.hosts == []
  }

  ghost function Naming(routes: set<Route>, host: string): set<Route> {
    set r | r in routes && NamesExactly(r.hosts, host)
  }

  ghost function Covering(routes: set<Route>, key: string): set<Route> {
    set r | r in routes && NamesWildcard(r.hosts, key)
  }

  ghost predicate Indexes(ix: DecisionIndex, routes: set<Route>) {
    && Decides(ix.hostless, Hostless(routes))
    && (forall h :: Decides(DecisionAt(ix.exactHosts, h), Naming(routes, h)))
    && (forall k :: Decides(DecisionAt(ix.wildcardHosts, k), Covering(routes, k)))
  }

  lemma EmptyIndex(pattern: string)
    ensures Indexes(DecisionIndex(pattern, Undecided, map[], map[]), {})
  {
    assert Decides(Undecided, {}) by {
      assert forall m :: WithMethod({}, m) == {};
    }
    assert Hostless({}) == {};
    assert forall h :: Naming({}, h) == {};
    assert forall k :: Covering({}, k) == {};
  }

  ghost function If(b: bool, route: Route): set<Route> {
    if b then {route} else {}
  }

  lemma NamesNext(hosts: seq<string>, i: nat)
    requires i < |hosts|
    ensures var host := NormalizeRouteHost(hosts[i]);
      && (forall h :: NamesExactly(hosts[..i + 1], h) <==> NamesExactly(hosts[..i], h) || (h == host && !HasWildcard(host)))
      && (forall k :: NamesWildcard(hosts[..i + 1], k) <==> NamesWildcard(hosts[..i], k) || WildcardRouteHostKey(host) == Some(k))
  {
    var less, more := hosts[..i], hosts[..i + 1];
    assert more == less + [hosts[i]];
    forall h | NamesExactly(less, h)
      ensures NamesExactly(more, h)
    {
      var j :| 0 <= j < |less| && NormalizeRouteHost(less[j]) == h && !HasWildcard(h);
      assert more[j] == less[j];
    }
    forall k | NamesWildcard(less, k)
      ensures NamesWildcard(more, k)
    {
      var j :| 0 <= j < |less| && WildcardRouteHostKey(NormalizeRouteHost(less[j])) == Some(k);
      assert more[j] == less[j];
    }
    assert more[i] == hosts[i];
  }

  lemma HostsAdded(routes: set<Route>, route: Route)
    ensures Hostless(routes + {route}) == Hostless(routes) + If(route.hosts == [], route)
    ensures forall h :: Naming(routes + {route}, h) == Naming(routes, h) + If(NamesExactly(route.hosts, h), route)
    ensures forall k :: Covering(routes + {route}, k) == Covering(routes, k) + If(NamesWildcard(route.hosts, k), route)
  {
  }

  /** The decisions after some of a route's hosts were filed. */
  ghost predicate FiledExact(decisions: map<string, HostDecision>, routes: set<Route>, route: Route, hosts: seq<string>) {
    forall h :: Decides(DecisionAt(decisions, h), Naming(routes, h) + If(NamesExactly(hosts, h), route))
  }

  ghost predicate FiledWildcard(decisions: map<string, HostDecision>, routes: set<Route>, route: Route, hosts: seq<string>) {
    forall k :: Decides(DecisionAt(decisions, k), Covering(routes, k) + If(NamesWildcard(hosts, k), route))
  }

  method AddExactHost(decisions: map<string, HostDecision>, route: Route, host: string, ghost routes: set<Route>, ghost hosts: seq<string>, ghost more: seq<string>)
    returns (r: map<string, HostDecision>)
    requires FiledExact(decisions, routes, route, hosts)
    requires forall h :: NamesExactly(more, h) <==> NamesExactly(hosts, h) || h == host
    ensures FiledExact(r, routes, route, more)
  {
    ghost var before := Naming(routes, host) + If(NamesExactly(hosts, host), route);
    var decision := AddToHost(DecisionAt(decisions, host), route, before);
    r := decisions[host := decision];
    assert before + {route} == Naming(routes, host) + {route};
  }

  method AddWildcardHost(decisions: map<string, HostDecision>, route: Route, key: string, ghost routes: set<Route>, ghost hosts: seq<string>, ghost more: seq<string>)
    returns (r: map<string, HostDecision>)
    requires FiledWildcard(decisions, routes, route, hosts)
    requires forall k :: NamesWildcard(more, k) <==> NamesWildcard(hosts, k) || k == key
    ensures FiledWildcard(r, routes, route, more)
  {
    ghost var before := Covering(routes, key) + If(NamesWildcard(hosts, key), route);
    var decision := AddToHost(DecisionAt(decisions, key), route, before);
    r := decisions[key := decision];
    assert before + {route} == Covering(routes, key) + {route};
  }

  /** Files the route under one of its hosts; a wildcard host of another form is skipped. */
  method AddHost(ix: DecisionIndex, route: Route, i: nat, ghost routes: set<Route>) returns (r: DecisionIndex)
    requires i < |route.hosts|
    requires FiledExact(ix.exactHosts, routes, route, route.hosts[..i])
    requires FiledWildcard(ix.wildcardHosts, routes, route, route.hosts[..i])
    ensures FiledExact(r.exactHosts, routes, route, route.hosts[..i + 1])
    ensures FiledWildcard(r.wildcardHosts, routes, route, route.hosts[..i + 1])
    ensures r.pattern == ix.pattern && r.hostless == ix.hostless
  {
    var host := NormalizeRouteHost(route.hosts[i]);
    NamesNext(route.hosts, i);
    if HasWildcard(host) {
      var key := WildcardRouteHostKey(host);
      if key.None? {
        return ix;
      }
      var decisions := AddWildcardHost(ix.wildcardHosts, route, key.value, routes, route.hosts[..i], route.hosts[..i + 1]);
      r := ix.(wildcardHosts := decisions);
    } else {
      var decisions := AddExactHost(ix.exactHosts, route, host, routes, route.hosts[..i], route.hosts[..i + 1]);
      r := ix.(exactHosts := decisions);
    }
  }

  lemma FilingStarts(ix: DecisionIndex, routes: set<Route>, route: Route)
    requires Indexes(ix, routes)
    ensures FiledExact(ix.exactHosts, routes, route, []) && FiledWildcard(ix.wildcardHosts, routes, route, [])
  {
    assert forall h :: Naming(routes, h) + If(NamesExactly([], h), route) == Naming(routes, h);
    assert forall k :: Covering(routes, k) + If(NamesWildcard([], k), route) == Covering(routes, k);
  }

  lemma FilingEnds(ix: DecisionIndex, routes: set<Route>, route: Route)
    requires FiledExact(ix.exactHosts, routes, route, route.hosts) && FiledWildcard(ix.wildcardHosts, routes, route, route.hosts)
    requires Decides(ix.hostless, Hostless(routes) + If(route.hosts == [], route))
    ensures Indexes(ix, routes + {route})
  {
    HostsAdded(routes, route);
  }

  /** routeDecisionIndex.add */
  method AddToIndex(ix: DecisionIndex, route: Route, ghost routes: set<Route>) returns (r: DecisionIndex)
    requires Indexes(ix, routes)
    ensures Indexes(r, routes + {route}) && r.pattern == ix.pattern
  {
    FilingStarts(ix, routes, route);
    if |route.hosts| == 0 {
      var hostless := AddToHost(ix.hostless, route, Hostless(routes));
      r := ix.(hostless := hostless);
      FilingEnds(r, routes, route);
      return;
    }
    r := ix;
    for i := 0 to |route.hosts|
      invariant FiledExact(r.exactHosts, routes, route, route.hosts[..i])
      invariant FiledWildcard(r.wildcardHosts, routes, route, route.hosts[..i])
      invariant r.pattern == ix.pattern && r.hostless == ix.hostless
    {
      r := AddHost(r, route, i, routes);
    }
    assert route.hosts[..|route.hosts|] == route.hosts;
    assert Hostless(routes) + If(route.hosts == [], route) == Hostless(routes);
    FilingEnds(r, routes, route);
  }

  // ----- looking a request up -----

  /** The routes that the index keeps for a host at one rank: 2 by name, 1 by wildcard, 0 for any host. */
  ghost function Level(routes: set<Route>, host: string, rank: int): set<Route> {
    if rank == 2 then Naming(routes, host)
    else if rank == 1 then if WildcardHostKey(host) == "" then {} else Covering(routes, WildcardHostKey(host))
    else Hostless(routes)
  }

  function LevelDecision(ix: DecisionIndex, host: string, rank: int): HostDecision {
    if rank == 2 then DecisionAt(ix.exactHosts, host)
    else if rank == 1 then if WildcardHostKey(host) == "" then Undecided else DecisionAt(ix.wildcardHosts, WildcardHostKey(host))
    else ix.hostless
  }

  lemma LevelDecides(ix: DecisionIndex, routes: set<Route>, host: string, rank: int)
    requires Indexes(ix, routes)
    ensures Decides(LevelDecision(ix, host, rank), Level(routes, host, rank))
  {
    if rank == 1 && WildcardHostKey(host) == "" {
      assert Decides(Undecided, {}) by {
        assert forall m :: WithMethod({}, m) == {};
      }
    }
  }

  /** The method a pass looks for: the request's own first, then any. */
  predicate PassMethod(anyMethod: bool, q: Request, r: Route) {
    if anyMethod then r.httpMethod == ANY else r.httpMethod == q.httpMethod && q.httpMethod != ANY
  }

  ghost function Pass(routes: set<Route>, q: Request, rank: int, anyMethod: bool): set<Route> {
    set r | r in Level(routes, q.host, rank) && PassMethod(anyMethod, q, r)
  }

  /** routeDecisionIndex.lookup: the candidate, and whether the host has any route at this rank. */
  function Lookup(ix: DecisionIndex, q: Request, rank: int, anyMethod: bool): (Option<Route>, bool) {
    var decision := LevelDecision(ix, q.host, rank);
    if !HasRoutes(decision) then (None, false)
    else if anyMethod then (decision.any, true)
    else (ExactAt(decision, q.httpMethod), true)
  }

  lemma LookupFinds(ix: DecisionIndex, routes: set<Route>, q: Request, rank: int, anyMethod: bool)
    requires Indexes(ix, routes)
    ensures var (candidate, hostMatched) := Lookup(ix, q, rank, anyMethod);
      Found(routes, q, rank, anyMethod, candidate, hostMatched)
  {
    var decision, level := LevelDecision(ix, q.host, rank), Level(routes, q.host, rank);
    LevelDecides(ix, routes, q.host, rank);
    HasRoutesMeaning(decision, level);
    if anyMethod {
      assert Pass(routes, q, rank, anyMethod) == WithMethod(level, ANY);
    } else if q.httpMethod != ANY {
      assert Pass(routes, q, rank, anyMethod) == WithMethod(level, q.httpMethod);
    } else {
      assert Pass(routes, q, rank, anyMethod) == {};
    }
  }

  // ----- combining what several paths contribute -----

  lemma LevelUnion(a: set<Route>, b: set<Route>, q: Request, rank: int, anyMethod: bool)
    ensures Level(a + b, q.host, rank) == Level(a, q.host, rank) + Level(b, q.host, rank)
    ensures Pass(a + b, q, rank, anyMethod) == Pass(a, q, rank, anyMethod) + Pass(b, q, rank, anyMethod)
  {
  }

  function NewerOf(best: Option<Route>, candidate: Option<Route>): Option<Route> {
    if candidate.Some? && (best.None? || candidate.value.registrationIndex > best.value.registrationIndex) then candidate else best
  }

  lemma NewestOfUnion(best: Option<Route>, a: set<Route>, candidate: Option<Route>, b: set<Route>)
    requires IsNewest(best, a) && IsNewest(candidate, b)
    ensures IsNewest(NewerOf(best, candidate), a + b)
  {
  }

  /** What a pass found among some routes. */
  ghost predicate Found(routes: set<Route>, q: Request, rank: int, anyMethod: bool, best: Option<Route>, hostMatched: bool) {
    && IsNewest(best, Pass(routes, q, rank, anyMethod))
    && (hostMatched <==> Level(routes, q.host, rank) != {})
  }

  lemma FoundNothing(q: Request, rank: int, anyMethod: bool)
    ensures Found({}, q, rank, anyMethod, None, false)
  {
  }

  lemma FoundMore(a: set<Route>, b: set<Route>, q: Request, rank: int, anyMethod: bool,
                  best: Option<Route>, hostMatched: bool, candidate: Option<Route>, matchedHost: bool)
    requires Found(a, q, rank, anyMethod, best, hostMatched) && Found(b, q, rank, anyMethod, candidate, matchedHost)
    ensures Found(a + b, q, rank, anyMethod, NewerOf(best, candidate), hostMatched || matchedHost)
  {
    LevelUnion(a, b, q, rank, anyMethod);
    NewestOfUnion(best, Pass(a, q, rank, anyMethod), candidate, Pass(b, q, rank, anyMethod));
  }

  /** The first slash of the path at or after a position, or the path's length. */
  method NextSlashFrom(path: string, from: nat) returns (slash: nat)
    requires from <= |path|
    ensures from <= slash <= |path| && (slash < |path| ==> path[slash] == '/')
    ensures forall i :: from <= i < slash ==> path[i] != '/'
  {
    var relative := IndexOf(path[from..], '/');
    assert forall i :: from <= i < from + relative ==> path[i] == path[from..][..relative][i - from];
    slash := from + relative;
  }

  // ----- the dispatcher's routes by path -----

  /** The route was registered under this mux pattern. */
  ghost predicate Fits(base: string, r: Route) {
    ConvertURI(r.pattern) == Some(base) && (r.embedded <==> IsEmbedded(r.pattern))
  }

  function SuffixOf(pattern: string): string {
    var star := IndexOf(pattern, '*');
    if star < |pattern| then pattern[star + 1..] else ""
  }

  ghost function Plain(routes: set<Route>): set<Route> {
    set r | r in routes && !r.embedded
  }

  ghost function EmbeddedAt(routes: set<Route>, suffix: string): set<Route> {
    set r | r in routes && r.embedded && SuffixOf(r.pattern) == suffix
  }

  /** The routes whose pattern matches the path, with or without an embedded wildcard. */
  ghost function OnPath(routes: set<Route>, q: Request, embedded: bool): set<Route> {
    set r | r in routes && r.embedded == embedded && MatchesRoutePath(r.pattern, q.path)
  }

  function IndexAt(indexes: map<string, DecisionIndex>, suffix: string): DecisionIndex {
    if suffix in indexes then indexes[suffix] else DecisionIndex("", Undecided, map[], map[])
  }

  ghost predicate FiledPlain(nonEmbedded: Option<DecisionIndex>, routes: set<Route>) {
    match nonEmbedded
    case None => Plain(routes) == {}
    case Some(ix) => Plain(routes) != {} && Indexes(ix, Plain(routes)) && forall r :: r in Plain(routes) ==> r.pattern == ix.pattern
  }

  ghost predicate FiledEmbedded(embedded: map<string, DecisionIndex>, routes: set<Route>) {
    forall suffix {:trigger EmbeddedAt(routes, suffix)} ::
      && Indexes(IndexAt(embedded, suffix), EmbeddedAt(routes, suffix))
      && (suffix !in embedded ==> EmbeddedAt(routes, suffix) == {})
  }

  /** When an embedded pattern matches: the path ends in its suffix, past the dispatcher's prefix. */
  lemma EmbeddedMatch(base: string, r: Route, path: string)
    requires Fits(base, r) && r.embedded
    ensures var suffix := SuffixOf(r.pattern);
      && suffix != "" && suffix[0] == '/'
      && (MatchesRoutePath(r.pattern, path) <==>
            HasPrefix(path, PrefixOf(base)) && HasSuffix(path, suffix) && |path| - |suffix| > |PrefixOf(base)|)
  {
    var suffix := EmbeddedShape(r.pattern);
    var prefix := PrefixOf(base);
    assert r.pattern[|prefix|] == '*';
    assert r.pattern[..|prefix|] == prefix;
    FirstIndex(r.pattern, '*', |prefix|);
  }

  /** The matching embedded routes whose suffix starts before a position of the path. */
  ghost function Before(routes: set<Route>, q: Request, position: int): set<Route> {
    set r | r in OnPath(routes, q, true) && |q.path| - |SuffixOf(r.pattern)| < position
  }

  ghost predicate AllFit(base: string, routes: set<Route>) {
    forall r {:trigger Fits(base, r)} :: r in routes ==> Fits(base, r)
  }

  lemma BeforePrefix(base: string, routes: set<Route>, q: Request)
    requires AllFit(base, routes)
    ensures Before(routes, q, |PrefixOf(base)|) == {}
    ensures !HasPrefix(q.path, PrefixOf(base)) || |q.path| <= |PrefixOf(base)| ==> OnPath(routes, q, true) == {}
  {
    forall r | r in OnPath(routes, q, true)
      ensures |q.path| - |SuffixOf(r.pattern)| > |PrefixOf(base)| && HasPrefix(q.path, PrefixOf(base))
    {
      EmbeddedMatch(base, r, q.path);
    }
  }

  lemma NextSlash(path: string, suffix: string, position: nat, slash: nat)
    requires position <= slash < |path| && (forall i :: position <= i < slash ==> path[i] != '/')
    requires suffix != "" && suffix[0] == '/' && HasSuffix(path, suffix)
    ensures |path| - |suffix| <= slash <==> |path| - |suffix| < position || suffix == path[slash..]
  {
    assert path[|path| - |suffix|] == suffix[0];
  }

  lemma RouteAtSlash(base: string, r: Route, path: string, position: nat, slash: nat)
    requires Fits(base, r) && r.embedded && HasPrefix(path, PrefixOf(base)) && |PrefixOf(base)| <= position <= slash < |path|
    requires forall i :: position <= i < slash ==> path[i] != '/'
    ensures MatchesRoutePath(r.pattern, path) && |path| - |SuffixOf(r.pattern)| < slash + 1 <==>
              || (MatchesRoutePath(r.pattern, path) && |path| - |SuffixOf(r.pattern)| < position)
              || (slash > |PrefixOf(base)| && SuffixOf(r.pattern) == path[slash..])
  {
    EmbeddedMatch(base, r, path);
    var suffix := SuffixOf(r.pattern);
    if HasSuffix(path, suffix) {
      NextSlash(path, suffix, position, slash);
    } else {
      assert suffix != path[slash..] by {
        assert HasSuffix(path, path[slash..]);
      }
    }
  }

  /** Going from one slash of the path to the next adds the routes filed under the suffix that starts there. */
  lemma BeforeNext(base: string, routes: set<Route>, q: Request, position: nat, slash: nat)
    requires AllFit(base, routes) && HasPrefix(q.path, PrefixOf(base))
    requires |PrefixOf(base)| <= position <= slash < |q.path|
    requires forall i :: position <= i < slash ==> q.path[i] != '/'
    ensures Before(routes, q, slash + 1)
         == Before(routes, q, position) + (if slash > |PrefixOf(base)| then EmbeddedAt(routes, q.path[slash..]) else {})
  {
    var below := slash > |PrefixOf(base)|;
    forall r | r in routes && r.embedded
      ensures r in Before(routes, q, slash + 1) <==> r in Before(routes, q, position) || (below && r in EmbeddedAt(routes, q.path[slash..]))
    {
      RouteAtSlash(base, r, q.path, position, slash);
    }
  }

  lemma BeforeEnd(base: string, routes: set<Route>, q: Request, position: nat)
    requires AllFit(base, routes)
    requires forall i :: position <= i < |q.path| ==> q.path[i] != '/'
    ensures Before(routes, q, position) == OnPath(routes, q, true)
  {
    forall r | r in OnPath(routes, q, true)
      ensures r in Before(routes, q, position)
    {
      EmbeddedMatch(base, r, q.path);
    }
  }

  lemma PlainOnPath(ix: DecisionIndex, routes: set<Route>, q: Request)
    requires forall r :: r in Plain(routes) ==> r.pattern == ix.pattern
    ensures OnPath(routes, q, false) == if MatchesRoutePath(ix.pattern, q.path) then Plain(routes) else {}
  {
  }

  /** A request that matches some route of a dispatcher with embedded routes is below its prefix. */
  lemma BelowPrefix(base: string, routes: set<Route>, q: Request, r: Route)
    requires AllFit(base, routes) && r in routes && MatchesRoutePath(r.pattern, q.path)
    ensures HasPrefix(q.path, PrefixOf(base)) || forall x :: x in routes ==> !x.embedded
  {
    if r.embedded {
      EmbeddedMatch(base, r, q.path);
    } else if x :| x in routes && x.embedded {
      assert Fits(base, r) && Fits(base, x);
      PlainBesideEmbedded(r.pattern, x.pattern, q.path);
    }
  }

  // ----- the order of the passes -----

  /** The place of a route, ranked as the index ranks hosts. */
  predicate InPlace(r: Route, q: Request) {
    MatchesRoutePath(r.pattern, q.path) && IndexRank(r.hosts, q.host) >= 0
  }

  /** The number of the pass that looks at a host rank: embedded patterns first, then rank 2, 1, 0. */
  function PlaceTier(embedded: bool, rank: int): int {
    (if embedded then 0 else 6) + (2 - rank) * 2
  }

  /** The pass in which the dispatcher would first meet the route. */
  function Tier(r: Route, q: Request): int {
    PlaceTier(r.embedded, IndexRank(r.hosts, q.host)) + (if r.httpMethod == ANY then 1 else 0)
  }

  ghost predicate NoneBefore(routes: set<Route>, q: Request, tier: int) {
    forall r :: r in routes && InPlace(r, q) && MatchesMethod(r, q) ==> Tier(r, q) >= tier
  }

  ghost predicate IndexPicks(routes: set<Route>, q: Request, best: Route) {
    && best in routes && InPlace(best, q) && MatchesMethod(best, q)
    && forall r :: r in routes && InPlace(r, q) && MatchesMethod(r, q) ==>
         NoBetter(r, best, IndexRank(r.hosts, q.host), IndexRank(best.hosts, q.host))
  }

  /** A route filed at a rank has at least that rank, and a route is filed at its rank. */
  lemma LevelIsRank(routes: set<Route>, r: Route, host: string, rank: int)
    requires 0 <= rank <= 2
    ensures r in Level(routes, host, rank) ==> r in routes && IndexRank(r.hosts, host) >= rank
    ensures r in routes && IndexRank(r.hosts, host) == rank ==> r in Level(routes, host, rank)
  {
  }

  lemma PassIsTier(routes: set<Route>, q: Request, embedded: bool, rank: int, anyMethod: bool, r: Route)
    requires 0 <= rank <= 2
    ensures var tier := PlaceTier(embedded, rank) + if anyMethod then 1 else 0;
      && (r in Pass(OnPath(routes, q, embedded), q, rank, anyMethod) ==>
            r in routes && InPlace(r, q) && MatchesMethod(r, q) && Tier(r, q) <= tier)
      && (r in routes && InPlace(r, q) && MatchesMethod(r, q) && Tier(r, q) == tier ==>
            r in Pass(OnPath(routes, q, embedded), q, rank, anyMethod))
  {
    LevelIsRank(OnPath(routes, q, embedded), r, q.host, rank);
  }

  lemma TierIsOrder(q: Request, a: Route, b: Route)
    requires InPlace(a, q) && InPlace(b, q)
    requires Tier(a, q) > Tier(b, q) || (Tier(a, q) == Tier(b, q) && a.registrationIndex <= b.registrationIndex)
    ensures NoBetter(a, b, IndexRank(a.hosts, q.host), IndexRank(b.hosts, q.host))
  {
  }

  /** What one pass settles. */
  lemma PassSettles(routes: set<Route>, q: Request, embedded: bool, rank: int, anyMethod: bool, best: Option<Route>)
    requires 0 <= rank <= 2 && IsNewest(best, Pass(OnPath(routes, q, embedded), q, rank, anyMethod))
    requires NoneBefore(routes, q, PlaceTier(embedded, rank) + if anyMethod then 1 else 0)
    ensures best.Some? ==> IndexPicks(routes, q, best.value)
    ensures best.None? ==> NoneBefore(routes, q, PlaceTier(embedded, rank) + if anyMethod then 2 else 1)
  {
    if best.Some? {
      PassIsTier(routes, q, embedded, rank, anyMethod, best.value);
    }
    forall r | r in routes && InPlace(r, q) && MatchesMethod(r, q)
      ensures best.Some? ==> NoBetter(r, best.value, IndexRank(r.hosts, q.host), IndexRank(best.value.hosts, q.host))
      ensures best.None? ==> Tier(r, q) >= PlaceTier(embedded, rank) + if anyMethod then 2 else 1
    {
      PassIsTier(routes, q, embedded, rank, anyMethod, r);
      if best.Some? {
        TierIsOrder(q, r, best.value);
      }
    }
  }

  /** The passes before this one have seen every host that matches at their places. */
  ghost predicate HostsSeen(routes: set<Route>, q: Request, hostMatched: bool, tier: int) {
    && (hostMatched ==> exists r :: r in routes && InPlace(r, q))
    && (forall r :: r in routes && InPlace(r, q) && PlaceTier(r.embedded, IndexRank(r.hosts, q.host)) < tier ==> hostMatched)
  }

  lemma PassSees(routes: set<Route>, q: Request, embedded: bool, rank: int, hostMatched: bool, matchedHost: bool, tier: int)
    requires 0 <= rank <= 2 && HostsSeen(routes, q, hostMatched, tier)
    requires matchedHost <==> Level(OnPath(routes, q, embedded), q.host, rank) != {}
    requires PlaceTier(embedded, rank) <= tier <= PlaceTier(embedded, rank) + 1
    ensures HostsSeen(routes, q, hostMatched || matchedHost, tier + 1)
  {
    var onPath := OnPath(routes, q, embedded);
    if matchedHost {
      var r :| r in Level(onPath, q.host, rank);
      LevelIsRank(onPath, r, q.host, rank);
      assert InPlace(r, q);
    }
    forall r | r in routes && InPlace(r, q) && PlaceTier(r.embedded, IndexRank(r.hosts, q.host)) == tier
      ensures matchedHost
    {
      LevelIsRank(onPath, r, q.host, rank);
    }
  }

  // ----- allowed methods -----

  /** The methods, other than any, of the routes at one host decision. */
  lemma AllowedMeaning(d: HostDecision, routes: set<Route>, m: string)
    requires Decides(d, routes)
    ensures m in d.allowed <==> m != ANY && exists r :: r in routes && r.httpMethod == m
  {
    if m != ANY {
      if r :| r in routes && r.httpMethod == m {
        assert r in WithMethod(routes, m);
      }
      if m in d.exact {
        assert d.exact[m] in WithMethod(routes, m);
      }
    }
  }

  /** The route is at one of the host's three ranks. */
  predicate AtHost(r: Route, host: string) {
    IndexRank(r.hosts, host) >= 0
  }

  ghost predicate AllowedFor(allowed: seq<string>, routes: set<Route>, host: string) {
    && Sorted(allowed)
    && forall m :: m in allowed <==> m != ANY && exists r :: r in routes && AtHost(r, host) && r.httpMethod == m
  }

  lemma LevelsCover(routes: set<Route>, host: string, r: Route)
    ensures r in routes && AtHost(r, host) <==>
            r in Level(routes, host, 2) || r in Level(routes, host, 1) || r in Level(routes, host, 0)
  {
  }

  lemma LevelsAllow(ix: DecisionIndex, routes: set<Route>, host: string, m: string)
    requires Indexes(ix, routes)
    ensures m != ANY && (exists r :: r in routes && AtHost(r, host) && r.httpMethod == m) <==>
            m in LevelDecision(ix, host, 2).allowed || m in LevelDecision(ix, host, 1).allowed || m in LevelDecision(ix, host, 0).allowed
  {
    forall rank | 0 <= rank <= 2
      ensures m in LevelDecision(ix, host, rank).allowed <==> m != ANY && exists r :: r in Level(routes, host, rank) && r.httpMethod == m
    {
      LevelDecides(ix, routes, host, rank);
      AllowedMeaning(LevelDecision(ix, host, rank), Level(routes, host, rank), m);
    }
    forall r
      ensures r in routes && AtHost(r, host) <==>
              r in Level(routes, host, 2) || r in Level(routes, host, 1) || r in Level(routes, host, 0)
    {
      LevelsCover(routes, host, r);
    }
  }

  /** routeDecisionIndex.addAllowedMethods */
  method AddAllowedMethods(ix: DecisionIndex, host: string, allowed: seq<string>, ghost before: set<Route>, ghost routes: set<Route>)
    returns (r: seq<string>)
    requires Indexes(ix, routes) && AllowedFor(allowed, before, host)
    ensures AllowedFor(r, before + routes, host)
  {
    r := InsertAll(allowed, LevelDecision(ix, host, 2).allowed);
    r := InsertAll(r, LevelDecision(ix, host, 1).allowed);
    r := InsertAll(r, LevelDecision(ix, host, 0).allowed);
    forall m
      ensures m in r <==> m != ANY && exists x :: x in before + routes && AtHost(x, host) && x.httpMethod == m
    {
      LevelsAllow(ix, routes, host, m);
    }
  }

  // ----- the dispatcher -----

  method FileEmbedded(embedded: map<string, DecisionIndex>, route: Route, ghost routes: set<Route>)
    returns (r: map<string, DecisionIndex>)
    requires FiledEmbedded(embedded, routes) && route.embedded
    ensures FiledEmbedded(r, routes + {route})
  {
    var suffix := SuffixOf(route.pattern);
    var ix := IndexAt(embedded, suffix);
    if suffix !in embedded {
      ix := ix.(pattern := route.pattern);
    }
    ix := AddToIndex(ix, route, EmbeddedAt(routes, suffix));
    r := embedded[suffix := ix];
    assert EmbeddedAt(routes + {route}, suffix) == EmbeddedAt(routes, suffix) + {route};
    assert forall s :: s != suffix ==> EmbeddedAt(routes + {route}, s) == EmbeddedAt(routes, s);
  }

  method FilePlain(base: string, nonEmbedded: Option<DecisionIndex>, route: Route, ghost routes: set<Route>)
    returns (r: Option<DecisionIndex>)
    requires FiledPlain(nonEmbedded, routes) && AllFit(base, routes) && Fits(base, route) && !route.embedded
    ensures FiledPlain(r, routes + {route})
  {
    var ix: DecisionIndex;
    if nonEmbedded.None? {
      ix := DecisionIndex(route.pattern, Undecided, map[], map[]);
      EmptyIndex(route.pattern);
    } else {
      ix := nonEmbedded.value;
      ghost var x :| x in Plain(routes);
      assert Fits(base, x);
      PlainPatternUnique(x.pattern, route.pattern);
    }
    ix := AddToIndex(ix, route, Plain(routes));
    assert Plain(routes + {route}) == Plain(routes) + {route};
    r := Some(ix);
  }

  /** What the routes filed under one suffix of the path add to a pass. */
  method VisitSuffix(base: string, embedded: map<string, DecisionIndex>, q: Request, from: nat, slash: nat,
                     rank: int, anyMethod: bool, best: Option<Route>, pathMatched: bool, hostMatched: bool, ghost routes: set<Route>)
    returns (newBest: Option<Route>, newPath: bool, newHost: bool)
    requires AllFit(base, routes) && FiledEmbedded(embedded, routes) && HasPrefix(q.path, PrefixOf(base))
    requires |PrefixOf(base)| <= from <= slash < |q.path| && forall i :: from <= i < slash ==> q.path[i] != '/'
    requires Found(Before(routes, q, from), q, rank, anyMethod, best, hostMatched) && (hostMatched ==> pathMatched)
    ensures Found(Before(routes, q, slash + 1), q, rank, anyMethod, newBest, newHost) && (newHost ==> newPath)
  {
    var suffix := q.path[slash..];
    BeforeNext(base, routes, q, from, slash);
    if suffix in embedded && |q.path| > |PrefixOf(base)| + |suffix| {
      var (candidate, matchedHost) := Lookup(embedded[suffix], q, rank, anyMethod);
      assert IndexAt(embedded, suffix) == embedded[suffix];
      LookupFinds(embedded[suffix], EmbeddedAt(routes, suffix), q, rank, anyMethod);
      FoundMore(Before(routes, q, from), EmbeddedAt(routes, suffix), q, rank, anyMethod, best, hostMatched, candidate, matchedHost);
      return NewerOf(best, candidate), true, hostMatched || matchedHost;
    }
    ghost var added := if slash > |PrefixOf(base)| then EmbeddedAt(routes, suffix) else {};
    assert added == {};
    assert Before(routes, q, from) + added == Before(routes, q, from);
    return best, pathMatched, hostMatched;
  }

  /** With no slash left, all embedded routes on the path were looked at. */
  lemma FoundAll(base: string, routes: set<Route>, q: Request, from: nat, rank: int, anyMethod: bool, best: Option<Route>, hostMatched: bool)
    requires AllFit(base, routes) && from <= |q.path| && forall i :: from <= i < |q.path| ==> q.path[i] != '/'
    requires Found(Before(routes, q, from), q, rank, anyMethod, best, hostMatched)
    ensures Found(OnPath(routes, q, true), q, rank, anyMethod, best, hostMatched)
  {
    BeforeEnd(base, routes, q, from);
  }

  method VisitSuffixes(base: string, embedded: map<string, DecisionIndex>, q: Request, rank: int, anyMethod: bool, ghost routes: set<Route>)
    returns (best: Option<Route>, pathMatched: bool, hostMatched: bool)
    requires AllFit(base, routes) && FiledEmbedded(embedded, routes) && HasPrefix(q.path, PrefixOf(base))
    ensures Found(OnPath(routes, q, true), q, rank, anyMethod, best, hostMatched)
    ensures hostMatched ==> pathMatched
  {
    best, pathMatched, hostMatched := None, false, false;
    BeforePrefix(base, routes, q);
    FoundNothing(q, rank, anyMethod);
    var searchFrom := |PrefixOf(base)|;
    while searchFrom < |q.path|
      invariant |PrefixOf(base)| <= searchFrom <= |q.path|
      invariant Found(Before(routes, q, searchFrom), q, rank, anyMethod, best, hostMatched) && (hostMatched ==> pathMatched)
    {
      var slash := NextSlashFrom(q.path, searchFrom);
      if slash == |q.path| {
        break;
      }
      best, pathMatched, hostMatched :=
        VisitSuffix(base, embedded, q, searchFrom, slash, rank, anyMethod, best, pathMatched, hostMatched, routes);
      searchFrom := slash + 1;
    }
    FoundAll(base, routes, q, searchFrom, rank, anyMethod, best, hostMatched);
  }

  lemma PlainUntouched(nonEmbedded: Option<DecisionIndex>, routes: set<Route>, route: Route)
    requires FiledPlain(nonEmbedded, routes) && route.embedded
    ensures FiledPlain(nonEmbedded, routes + {route})
  {
    assert Plain(routes + {route}) == Plain(routes);
  }

  lemma EmbeddedUntouched(embedded: map<string, DecisionIndex>, routes: set<Route>, route: Route)
    requires FiledEmbedded(embedded, routes) && !route.embedded
    ensures FiledEmbedded(embedded, routes + {route})
  {
    assert forall suffix :: EmbeddedAt(routes + {route}, suffix) == EmbeddedAt(routes, suffix);
  }

  class WildcardDispatcher {
    /** The mux pattern the dispatcher is registered under, and that pattern without a final wildcard. */
    const base: string
    const prefix: string
    var nonEmbedded: Option<DecisionIndex>
    var embedded: map<string, DecisionIndex>
    /** Every route that was added. */
    ghost var routes: set<Route>

    ghost predicate Valid()
      reads this
    {
      && prefix == PrefixOf(base) && AllFit(base, routes)
      && FiledPlain(nonEmbedded, routes) && FiledEmbedded(embedded, routes)
    }

    constructor (base: string)
      ensures Valid() && this.base == base && routes == {}
    {
      this.base := base;
      prefix := PrefixOf(base);
      nonEmbedded := None;
      embedded := map[];
      routes := {};
      new;
      EmptyIndex("");
      assert forall suffix :: EmbeddedAt({}, suffix) == {};
    }

    method Add(route: Route)
      requires Valid() && Fits(base, route)
      modifies this
      ensures Valid() && routes == old(routes) + {route}
    {
      if route.embedded {
        PlainUntouched(nonEmbedded, routes, route);
        embedded := FileEmbedded(embedded, route, routes);
      } else {
        EmbeddedUntouched(embedded, routes, route);
        nonEmbedded := FilePlain(base, nonEmbedded, route, routes);
      }
      routes := routes + {route};
    }

    /** One pass over the suffixes of the path: the newest embedded route at this host rank and method. */
    method MatchEmbedded(q: Request, rank: int, anyMethod: bool) returns (best: Option<Route>, pathMatched: bool, hostMatched: bool)
      requires Valid() && 0 <= rank <= 2
      ensures Found(OnPath(routes, q, true), q, rank, anyMethod, best, hostMatched)
      ensures hostMatched ==> pathMatched
    {
      if |q.path| <= |prefix| || !HasPrefix(q.path, prefix) {
        BeforePrefix(base, routes, q);
        FoundNothing(q, rank, anyMethod);
        return None, false, false;
      }
      best, pathMatched, hostMatched := VisitSuffixes(base, embedded, q, rank, anyMethod, routes);
    }

    method MatchNonEmbedded(q: Request, rank: int, anyMethod: bool, pathMatched: bool)
      returns (best: Option<Route>, matchedPath: bool, hostMatched: bool)
      requires Valid() && 0 <= rank <= 2
      requires pathMatched <==> nonEmbedded.Some? && MatchesRoutePath(nonEmbedded.value.pattern, q.path)
      ensures Found(OnPath(routes, q, false), q, rank, anyMethod, best, hostMatched)
      ensures hostMatched ==> matchedPath
    {
      if nonEmbedded.Some? {
        PlainOnPath(nonEmbedded.value, routes, q);
      } else {
        assert OnPath(routes, q, false) == {};
      }
      if nonEmbedded.None? || !pathMatched {
        FoundNothing(q, rank, anyMethod);
        return None, false, false;
      }
      var (candidate, matchedHost) := Lookup(nonEmbedded.value, q, rank, anyMethod);
      LookupFinds(nonEmbedded.value, Plain(routes), q, rank, anyMethod);
      return candidate, true, matchedHost;
    }

    /** One pass: the best route if the pass has any, else what is known for the next pass. */
    method RunPass(q: Request, embeddedIndex: nat, rank: int, methodIndex: nat, plainMatched: bool, pathMatched: bool, hostMatched: bool)
      returns (best: Option<Route>, newPath: bool, newHost: bool)
      requires Valid() && embeddedIndex < 2 && 0 <= rank <= 2 && methodIndex < 2
      requires plainMatched <==> nonEmbedded.Some? && MatchesRoutePath(nonEmbedded.value.pattern, q.path)
      requires Searching(routes, q, PlaceTier(embeddedIndex == 0, rank) + methodIndex, pathMatched, hostMatched)
      ensures best.Some? ==> IndexPicks(routes, q, best.value)
      ensures best.None? ==> Searching(routes, q, PlaceTier(embeddedIndex == 0, rank) + methodIndex + 1, newPath, newHost)
    {
      var matchedPath, matchedHost;
      if embeddedIndex == 0 {
        if |embedded| == 0 {
          NoEmbedded(embedded, routes, q);
          FoundNothing(q, rank, methodIndex == 1);
          best, matchedPath, matchedHost := None, false, false;
        } else {
          best, matchedPath, matchedHost := MatchEmbedded(q, rank, methodIndex == 1);
        }
      } else {
        best, matchedPath, matchedHost := MatchNonEmbedded(q, rank, methodIndex == 1, plainMatched);
      }
      PassSettles(routes, q, embeddedIndex == 0, rank, methodIndex == 1, best);
      PassSees(routes, q, embeddedIndex == 0, rank, hostMatched, matchedHost, PlaceTier(embeddedIndex == 0, rank) + methodIndex);
      newPath, newHost := pathMatched || matchedPath, hostMatched || matchedHost;
    }

    /** The methods of the routes that match a path and a host, in order. */
    method AllowedMethods(q: Request) returns (allowed: seq<string>)
      requires Valid() && exists r :: r in routes && MatchesRoutePath(r.pattern, q.path)
      ensures AllowedFor(allowed, OnPath(routes, q, false) + OnPath(routes, q, true), q.host)
    {
      ghost var r :| r in routes && MatchesRoutePath(r.pattern, q.path);
      BelowPrefix(base, routes, q, r);
      allowed := [];
      assert AllowedFor([], {}, q.host);
      if nonEmbedded.Some? {
        PlainOnPath(nonEmbedded.value, routes, q);
      } else {
        assert OnPath(routes, q, false) == {};
      }
      if nonEmbedded.Some? && MatchesRoutePath(nonEmbedded.value.pattern, q.path) {
        allowed := AddAllowedMethods(nonEmbedded.value, q.host, allowed, {}, Plain(routes));
        assert {} + Plain(routes) == OnPath(routes, q, false);
      }
      allowed := AllowedEmbedded(q, allowed);
    }

    method AllowedEmbedded(q: Request, before: seq<string>) returns (allowed: seq<string>)
      requires Valid() && AllowedFor(before, OnPath(routes, q, false), q.host)
      requires HasPrefix(q.path, prefix) || forall r :: r in routes ==> !r.embedded
      ensures AllowedFor(allowed, OnPath(routes, q, false) + OnPath(routes, q, true), q.host)
    {
      allowed := AllowSuffixes(base, embedded, q, before, OnPath(routes, q, false), routes);
    }

    /** The answer to a request: what a linear scan over the added routes would answer. */
    method ServeHTTP(q: Request) returns (answer: Answer)
      requires Valid()
      ensures IndexAnswers(routes, q, answer)
      ensures AllValid(routes) ==> ScanAnswers(routes, q, answer)
      // in terms of the paths and hosts that the routes stand for
      ensures AllValid(routes) && IsLowerCase(q.host) ==>
                && (answer.NotFound? <==> forall r :: r in routes ==> !(Builds(r.pattern, q.path) && Admits(r.hosts, q.host)))
                && (answer.Served? <==> exists r :: r in routes && IsFor(r, q))
                && (answer.Served? ==> answer.route in routes && IsFor(answer.route, q))
    {
      answer := Search(q);
      if AllValid(routes) {
        RefinesScan(routes, q, answer);
        if IsLowerCase(q.host) {
          ScanMeaning(base, routes, q, answer);
        }
      }
    }

    /** The passes of one host rank: the request's method, then any. */
    method SearchRank(q: Request, embeddedIndex: nat, rank: int, plainMatched: bool, pathMatched: bool, hostMatched: bool)
      returns (best: Option<Route>, newPath: bool, newHost: bool)
      requires Valid() && embeddedIndex < 2 && 0 <= rank <= 2
      requires plainMatched <==> nonEmbedded.Some? && MatchesRoutePath(nonEmbedded.value.pattern, q.path)
      requires Searching(routes, q, PlaceTier(embeddedIndex == 0, rank), pathMatched, hostMatched)
      ensures best.Some? ==> IndexPicks(routes, q, best.value)
      ensures best.None? ==> Searching(routes, q, PlaceTier(embeddedIndex == 0, rank) + 2, newPath, newHost)
    {
      best, newPath, newHost := None, pathMatched, hostMatched;
      for methodIndex := 0 to 2
        invariant best.None? && Searching(routes, q, PlaceTier(embeddedIndex == 0, rank) + methodIndex, newPath, newHost)
      {
        best, newPath, newHost := RunPass(q, embeddedIndex, rank, methodIndex, plainMatched, newPath, newHost);
        if best.Some? {
          return;
        }
      }
    }

    /** The passes of embedded patterns, or of the others: the highest host rank first. */
    method SearchRanks(q: Request, embeddedIndex: nat, plainMatched: bool, pathMatched: bool, hostMatched: bool)
      returns (best: Option<Route>, newPath: bool, newHost: bool)
      requires Valid() && embeddedIndex < 2
      requires plainMatched <==> nonEmbedded.Some? && MatchesRoutePath(nonEmbedded.value.pattern, q.path)
      requires Searching(routes, q, PlaceTier(embeddedIndex == 0, 2), pathMatched, hostMatched)
      ensures best.Some? ==> IndexPicks(routes, q, best.value)
      ensures best.None? ==> Searching(routes, q, PlaceTier(embeddedIndex == 0, 2) + 6, newPath, newHost)
    {
      best, newPath, newHost := None, pathMatched, hostMatched;
      for rankIndex := 0 to 3
        invariant best.None? && Searching(routes, q, PlaceTier(embeddedIndex == 0, 2) + rankIndex * 2, newPath, newHost)
      {
        assert PlaceTier(embeddedIndex == 0, 2 - rankIndex) == PlaceTier(embeddedIndex == 0, 2) + rankIndex * 2;
        best, newPath, newHost := SearchRank(q, embeddedIndex, 2 - rankIndex, plainMatched, newPath, newHost);
        if best.Some? {
          return;
        }
      }
    }

    method Search(q: Request) returns (answer: Answer)
      requires Valid()
      ensures IndexAnswers(routes, q, answer)
    {
      var plainMatched := nonEmbedded.Some? && MatchesRoutePath(nonEmbedded.value.pattern, q.path);
      SearchStarts(routes, q);
      var best, pathMatched, hostMatched := SearchRanks(q, 0, plainMatched, false, false);
      if best.None? {
        best, pathMatched, hostMatched := SearchRanks(q, 1, plainMatched, pathMatched, hostMatched);
      }
      if best.Some? {
        return Served(best.value);
      }
      answer := Miss(q, pathMatched, hostMatched);
    }

    /** The answer when no pass found a route. */
    method Miss(q: Request, pathMatched: bool, hostMatched: bool) returns (answer: Answer)
      requires Valid() && Searching(routes, q, 12, pathMatched, hostMatched)
      ensures !answer.Served? && IndexAnswers(routes, q, answer)
    {
      NothingMatched(routes, q, pathMatched, hostMatched);
      if pathMatched && hostMatched {
        var allowed := AllowedMethods(q);
        AllowedAreMissed(routes, q, allowed);
        return MethodNotAllowed(allowed);
      }
      return NotFound;
    }
  }

  lemma SearchStarts(routes: set<Route>, q: Request)
    ensures Searching(routes, q, 0, false, false)
  {
    forall r | r in routes
      ensures Tier(r, q) >= 0 && PlaceTier(r.embedded, IndexRank(r.hosts, q.host)) >= 0
    {
    }
  }

  /** After the last pass no route matches, and the flags tell whether some route is in place. */
  lemma NothingMatched(routes: set<Route>, q: Request, pathMatched: bool, hostMatched: bool)
    requires Searching(routes, q, 12, pathMatched, hostMatched)
    ensures forall r :: r in routes && InPlace(r, q) ==> !MatchesMethod(r, q)
    ensures pathMatched && hostMatched <==> exists r :: r in routes && InPlace(r, q)
  {
    if r :| r in routes && InPlace(r, q) {
      assert PlaceTier(r.embedded, IndexRank(r.hosts, q.host)) < 12;
    }
  }

  ghost predicate Searching(routes: set<Route>, q: Request, tier: int, pathMatched: bool, hostMatched: bool) {
    NoneBefore(routes, q, tier) && HostsSeen(routes, q, hostMatched, tier) && (hostMatched ==> pathMatched)
  }

  lemma NoEmbedded(embedded: map<string, DecisionIndex>, routes: set<Route>, q: Request)
    requires FiledEmbedded(embedded, routes) && |embedded| == 0
    ensures OnPath(routes, q, true) == {}
  {
    assert forall r :: r in OnPath(routes, q, true) ==> r in EmbeddedAt(routes, SuffixOf(r.pattern));
  }

  lemma AllowedMore(base: string, routes: set<Route>, q: Request, from: nat, slash: nat, plain: set<Route>)
    requires AllFit(base, routes) && (HasPrefix(q.path, PrefixOf(base)) || forall x :: x in routes ==> !x.embedded)
    requires |PrefixOf(base)| <= from <= slash < |q.path| && forall i :: from <= i < slash ==> q.path[i] != '/'
    ensures plain + Before(routes, q, slash + 1)
         == plain + Before(routes, q, from) + if slash > |PrefixOf(base)| then EmbeddedAt(routes, q.path[slash..]) else {}
  {
    if HasPrefix(q.path, PrefixOf(base)) {
      BeforeNext(base, routes, q, from, slash);
    } else {
      assert OnPath(routes, q, true) == {} && EmbeddedAt(routes, q.path[slash..]) == {};
    }
  }

  /** Visits every suffix of the path that starts with a slash, for its methods. */
  method AllowSuffixes(base: string, embedded: map<string, DecisionIndex>, q: Request, start: seq<string>, ghost plain: set<Route>, ghost routes: set<Route>)
    returns (allowed: seq<string>)
    requires AllFit(base, routes) && FiledEmbedded(embedded, routes) && AllowedFor(start, plain, q.host)
    requires HasPrefix(q.path, PrefixOf(base)) || forall r :: r in routes ==> !r.embedded
    ensures AllowedFor(allowed, plain + OnPath(routes, q, true), q.host)
  {
    allowed := start;
    var searchFrom := |PrefixOf(base)|;
    ghost var seen := plain;
    BeforePrefix(base, routes, q);
    assert plain + Before(routes, q, searchFrom) == plain;
    while searchFrom < |q.path|
      invariant |PrefixOf(base)| <= searchFrom
      invariant seen == plain + Before(routes, q, searchFrom) && AllowedFor(allowed, seen, q.host)
    {
      var slash := NextSlashFrom(q.path, searchFrom);
      if slash == |q.path| {
        break;
      }
      var suffix := q.path[slash..];
      AllowedMore(base, routes, q, searchFrom, slash, plain);
      allowed := AllowSuffix(embedded, suffix, |q.path| > |PrefixOf(base)| + |suffix|, q.host, allowed, seen, routes);
      seen := plain + Before(routes, q, slash + 1);
      searchFrom := slash + 1;
    }
    BeforeEnd(base, routes, q, searchFrom);
  }

  /** Adds the methods of the routes filed under one suffix that lies past the prefix. */
  method AllowSuffix(embedded: map<string, DecisionIndex>, suffix: string, past: bool, host: string, allowed: seq<string>,
                     ghost before: set<Route>, ghost routes: set<Route>)
    returns (r: seq<string>)
    requires FiledEmbedded(embedded, routes) && AllowedFor(allowed, before, host)
    ensures AllowedFor(r, before + (if past then EmbeddedAt(routes, suffix) else {}), host)
  {
    if suffix in embedded && past {
      assert IndexAt(embedded, suffix) == embedded[suffix];
      r := AddAllowedMethods(embedded[suffix], host, allowed, before, EmbeddedAt(routes, suffix));
    } else {
      assert before + (if past then EmbeddedAt(routes, suffix) else {}) == before;
      r := allowed;
    }
  }

  ghost predicate IndexAnswers(routes: set<Route>, q: Request, answer: Answer) {
    match answer
    case Served(best) => IndexPicks(routes, q, best)
    case MethodNotAllowed(allow) =>
      && (forall r :: r in routes && InPlace(r, q) ==> !MatchesMethod(r, q))
      && (exists r :: r in routes && InPlace(r, q))
      && allow != [] && Sorted(allow)
      && (forall m :: m in allow <==> exists r :: r in routes && InPlace(r, q) && r.httpMethod == m)
    case NotFound => forall r :: r in routes ==> !InPlace(r, q)
  }

  /** With no route for the request's method, the allowed methods are those of every route in place. */
  lemma AllowedAreMissed(routes: set<Route>, q: Request, allowed: seq<string>)
    requires AllowedFor(allowed, OnPath(routes, q, false) + OnPath(routes, q, true), q.host)
    requires forall r :: r in routes && InPlace(r, q) ==> !MatchesMethod(r, q)
    requires exists r :: r in routes && InPlace(r, q)
    ensures allowed != [] && forall m :: m in allowed <==> exists r :: r in routes && InPlace(r, q) && r.httpMethod == m
  {
    var onPath := OnPath(routes, q, false) + OnPath(routes, q, true);
    assert forall r :: r in onPath && AtHost(r, q.host) <==> r in routes && InPlace(r, q);
    var r :| r in routes && InPlace(r, q);
    assert r.httpMethod in allowed;
  }

  // ----- the index refines the scan -----

  ghost predicate AllValid(routes: set<Route>) {
    forall r :: r in routes ==> forall i :: 0 <= i < |r.hosts| ==> ValidHost(r.hosts[i])
  }

  /** The request has a path the route's URI builds, a host that it admits, and its method unless it is for any. */
  ghost predicate IsFor(r: Route, q: Request) {
    Builds(r.pattern, q.path) && Admits(r.hosts, q.host) && (r.httpMethod == "*" || r.httpMethod == q.httpMethod)
  }

  lemma PlaceMeaning(base: string, routes: set<Route>, q: Request, r: Route)
    requires AllFit(base, routes) && r in routes && IsLowerCase(q.host)
    ensures MatchesPlace(r, q) <==> Builds(r.pattern, q.path) && Admits(r.hosts, q.host)
    ensures Matches(r, q) <==> IsFor(r, q)
  {
    assert Fits(base, r);
    MatchesExactlyBuilt(r.pattern, q.path);
    RankExactly(r.hosts, q.host);
  }

  lemma ScanMeaning(base: string, routes: set<Route>, q: Request, answer: Answer)
    requires AllFit(base, routes) && IsLowerCase(q.host) && ScanAnswers(routes, q, answer)
    ensures answer.NotFound? <==> forall r :: r in routes ==> !(Builds(r.pattern, q.path) && Admits(r.hosts, q.host))
    ensures answer.Served? <==> exists r :: r in routes && IsFor(r, q)
    ensures answer.Served? ==> answer.route in routes && IsFor(answer.route, q)
  {
    forall r | r in routes
      ensures MatchesPlace(r, q) <==> Builds(r.pattern, q.path) && Admits(r.hosts, q.host)
      ensures Matches(r, q) <==> IsFor(r, q)
    {
      PlaceMeaning(base, routes, q, r);
    }
  }

  /** The two host ranks order routes alike, for every request host. */
  lemma RanksOrderAlike(a: seq<string>, b: seq<string>, host: string)
    requires forall i :: 0 <= i < |a| ==> ValidHost(a[i])
    requires forall i :: 0 <= i < |b| ==> ValidHost(b[i])
    ensures IndexRank(a, host) >= 0 <==> RouteHostRank(a, host) >= 0
    ensures IndexRank(a, host) == IndexRank(b, host) <==> RouteHostRank(a, host) == RouteHostRank(b, host)
    ensures IndexRank(a, host) < IndexRank(b, host) <==> RouteHostRank(a, host) < RouteHostRank(b, host)
  {
    RanksRelated(a, host);
    RanksRelated(b, host);
    HostsRankMeaning(a, host);
    HostsRankMeaning(b, host);
  }

  lemma PlacesAgree(routes: set<Route>, q: Request)
    requires AllValid(routes)
    ensures forall r :: r in routes ==> (InPlace(r, q) <==> MatchesPlace(r, q))
  {
    forall r | r in routes
      ensures InPlace(r, q) <==> MatchesPlace(r, q)
    {
      RanksOrderAlike(r.hosts, r.hosts, q.host);
    }
  }

  lemma RefinesScan(routes: set<Route>, q: Request, answer: Answer)
    requires AllValid(routes) && IndexAnswers(routes, q, answer)
    ensures ScanAnswers(routes, q, answer)
  {
    PlacesAgree(routes, q);
    if answer.Served? {
      forall r | r in routes && Matches(r, q)
        ensures NoBetter(r, answer.route, RouteHostRank(r.hosts, q.host), RouteHostRank(answer.route.hosts, q.host))
      {
        RanksOrderAlike(r.hosts, answer.route.hosts, q.host);
      }
    }
  }

  /** Routes that a registrar numbers: entries of one registration differ only by their method. */
  ghost predicate Numbered(routes: set<Route>) {
    forall a, b :: a in routes && b in routes && a.registrationIndex == b.registrationIndex && a.httpMethod == b.httpMethod ==> a == b
  }

  /** The scan's answer is unique, so the index gives the scan's answer and no other. */
  lemma ScanIsDeterministic(routes: set<Route>, q: Request, first: Answer, second: Answer)
    requires Numbered(routes) && ScanAnswers(routes, q, first) && ScanAnswers(routes, q, second)
    ensures first == second
  {
    if first.Served? && second.Served? {
      assert Matches(first.route, q) && Matches(second.route, q);
    } else if first.MethodNotAllowed? && second.MethodNotAllowed? {
      SortedUnique(first.allow, second.allow);
    }
  }
}
