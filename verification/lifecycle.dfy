/**
 * The life of a route generation: a published set of routes, the requests and batch leases that
 * hold it, and the Replace and Close calls that retire it, wait for its last holder and stop it.
 *
 * Every atomic operation is one step. `Replace` and `Close` run under a mutex, but requests do
 * not take it, so their steps fall anywhere between those of the mutex's owner. Hijacked
 * connections register themselves under a mutex of the generation they belong to.
 */
module RouteLifecycle {
  import opened Basics

  type Thread = nat
  type Connection = nat

  /** The high bit of a generation's 64-bit state word; the other bits count its holders. */
  const RETIRED: nat := 0x8000_0000_0000_0000
  const WORDS: nat := 0x1_0000_0000_0000_0000

  /** Whether the high bit of a 64-bit word is set. */
  predicate IsRetired(word: nat) {
    word >= RETIRED
  }

  /** The word without its high bit. */
  function Count(word: nat): nat {
    if word >= RETIRED then word - RETIRED else word
  }

  /** Adding the all-ones word, with wrap-around. */
  function Minus1(word: nat): (r: nat)
    ensures word < WORDS ==> r == (word + (WORDS - 1)) % WORDS
  {
    if word == 0 then WORDS - 1 else word - 1
  }

  datatype RouteSet = RouteSet(
    hasHandler: bool,
    word: nat,
    drained: bool,
    stops: nat,
    hijackMu: Option<Connection>,
    hijacked: set<Connection>
  )

  /** The next atomic operation of a goroutine that works on one generation. */
  datatype Op =
    // a request, from acquireRequest to finishRequest, or a batch lease
    | LoadRequest
    | CasRequest(seen: nat)
    | LoadLease
    | CasLease(seen: nat)
    | Holding
    | CloseDrained
    // Replace and Close
    | ReplaceLock
    | RetireLoad
    | RetireCas(seen: nat)
    | RetireHijack(last: bool)
    | RetireConnections(connections: set<Connection>, last: bool)
    | RetireDrain
    | Unlock
    | WaitDrained

  datatype Pc =
    | LoadCurrent
    | CloseLock
    | On(g: nat, op: Op)
    | Done

  /** How far a hijacked connection is in registerHijacked and its cleanup. */
  datatype Stage = Registering | Adding | Refused | Registered | Unregistered | ClosedSelf

  datatype Hijack = Hijack(g: nat, stage: Stage)

  datatype State = State(
    sets: seq<RouteSet>,
    current: Option<nat>,
    closed: bool,
    mu: Option<Thread>,
    threads: map<Thread, Pc>,
    hijacks: map<Connection, Hijack>,
    closedConnections: set<Connection>
  )

  function NewRouteSet(hasHandler: bool): RouteSet {
    RouteSet(hasHandler, 0, false, 0, None, {})
  }

  function Init(hasHandler: bool): State {
    State([NewRouteSet(hasHandler)], Some(0), false, None, map[], map[], {})
  }

  // ----- the steps -----

  /** Where an operation on a generation leads: another one on it, back to the current generation, or the end. */
  datatype After = Stay(op: Op) | Reload | Leave

  /** An operation that reads and writes nothing but its generation. */
  predicate IsLocal(op: Op) {
    !op.ReplaceLock? && !op.Unlock?
  }

  /** Whether the operation can proceed: the hijack mutex is free, the channel waited for is closed. */
  predicate Ready(r: RouteSet, op: Op) {
    && (op.RetireHijack? ==> r.hijackMu.None?)
    && (op.WaitDrained? ==> r.drained)
  }

  function LocalSet(r: RouteSet, op: Op): RouteSet {
    match op
    case CasRequest(seen) => if r.word == seen then r.(word := seen + 1) else r
    case CasLease(seen) => if r.word == seen then r.(word := seen + 1) else r
    case Holding => r.(word := Minus1(r.word))
    case CloseDrained => r.(drained := true)
    case RetireCas(seen) => if r.word == seen then r.(word := seen + RETIRED) else r
    case RetireHijack(_) => r.(hijacked := {})
    case RetireDrain => r.(drained := true)
    case WaitDrained => r.(stops := r.stops + 1)
    case _ => r
  }

  function LocalAfter(r: RouteSet, op: Op): After {
    match op
    case LoadRequest => if IsRetired(r.word) then Reload else Stay(CasRequest(r.word))
    case CasRequest(seen) => Stay(if r.word == seen then Holding else LoadRequest)
    case LoadLease => if IsRetired(r.word) then Leave else Stay(CasLease(r.word))
    case CasLease(seen) => Stay(if r.word == seen then Holding else LoadLease)
    case Holding => if Minus1(r.word) == RETIRED then Stay(CloseDrained) else Leave
    case CloseDrained => Leave
    case RetireLoad => Stay(if IsRetired(r.word) then Unlock else RetireCas(r.word))
    case RetireCas(seen) => Stay(if r.word == seen then RetireHijack(seen + RETIRED == RETIRED) else RetireLoad)
    case RetireHijack(last) => Stay(RetireConnections(r.hijacked, last))
    case RetireConnections(_, last) => Stay(if last then RetireDrain else Unlock)
    case RetireDrain => Stay(Unlock)
    case _ => Leave
  }

  function ToPc(g: nat, after: After): Pc {
    match after
    case Stay(op) => On(g, op)
    case Reload => LoadCurrent
    case Leave => Done
  }

  predicate CanMove(s: State, t: Thread) {
    && t in s.threads
    && match s.threads[t]
       case LoadCurrent => s.current.Some? ==> s.current.value < |s.sets|
       case CloseLock => s.mu.None?
       case On(g, op) => g < |s.sets| && Ready(s.sets[g], op) && (op.ReplaceLock? ==> s.mu.None?)
       case Done => false
  }

  /** One atomic operation of one goroutine. */
  function Move(s: State, t: Thread): State
    requires CanMove(s, t)
  {
    match s.threads[t]
    case LoadCurrent =>
      if s.current.None? || !s.sets[s.current.value].hasHandler then s.(threads := s.threads[t := Done])
      else s.(threads := s.threads[t := On(s.current.value, LoadRequest)])
    case CloseLock =>
      if s.closed then s.(threads := s.threads[t := Done])
      else if s.current.None? then s.(closed := true, threads := s.threads[t := Done])
      else s.(mu := Some(t), closed := true, current := None, threads := s.threads[t := On(s.current.value, RetireLoad)])
    case On(g, op) =>
      if op.ReplaceLock? then
        if s.closed then s.(mu := Some(t), threads := s.threads[t := On(g, RetireLoad)])
        else if s.current.None? then s.(current := Some(g), threads := s.threads[t := Done])
        else s.(mu := Some(t), current := Some(g), threads := s.threads[t := On(s.current.value, RetireLoad)])
      else if op.Unlock? then
        s.(mu := None, threads := s.threads[t := On(g, WaitDrained)])
      else
        s.(sets := s.sets[g := LocalSet(s.sets[g], op)],
           threads := s.threads[t := ToPc(g, LocalAfter(s.sets[g], op))],
           closedConnections := s.closedConnections + (if op.RetireConnections? then op.connections else {}))
  }

  predicate CanMoveHijack(s: State, c: Connection) {
    && c in s.hijacks && s.hijacks[c].g < |s.sets|
    && match s.hijacks[c].stage
       case Registering | Registered => s.sets[s.hijacks[c].g].hijackMu.None?
       case Adding | Refused => true
       case _ => false
  }

  function HijackSet(r: RouteSet, c: Connection, stage: Stage): RouteSet {
    match stage
    case Registering => if IsRetired(r.word) then r else r.(hijackMu := Some(c))
    case Adding => r.(hijackMu := None, hijacked := r.hijacked + {c})
    case Registered => r.(hijacked := r.hijacked - {c})
    case _ => r
  }

  function HijackStage(r: RouteSet, stage: Stage): Stage {
    match stage
    case Registering => if IsRetired(r.word) then Refused else Adding
    case Adding => Registered
    case Refused => ClosedSelf
    case Registered => Unregistered
    case _ => stage
  }

  /** One step of registerHijacked or of the cleanup it returns. The mutex is held from the check to the addition. */
  function MoveHijack(s: State, c: Connection): State
    requires CanMoveHijack(s, c)
  {
    var Hijack(g, stage) := s.hijacks[c];
    s.(sets := s.sets[g := HijackSet(s.sets[g], c, stage)],
       hijacks := s.hijacks[c := Hijack(g, HijackStage(s.sets[g], stage))],
       closedConnections := s.closedConnections + (if stage.Refused? then {c} else {}))
  }

  datatype Action =
    | StartRequest(t: Thread)
    | StartLease(t: Thread, g: nat)
    | StartReplace(t: Thread, hasHandler: bool)
    | StartClose(t: Thread)
    | StartHijack(c: Connection, g: nat)
    | ThreadMoves(t: Thread)
    | HijackMoves(c: Connection)

  predicate Enabled(s: State, a: Action) {
    match a
    case StartRequest(_) | StartReplace(_, _) | StartClose(_) => a.t !in s.threads
    case StartLease(t, g) => t !in s.threads && g < |s.sets|
    case StartHijack(c, g) => c !in s.hijacks && g < |s.sets|
    case ThreadMoves(t) => CanMove(s, t)
    case HijackMoves(c) => CanMoveHijack(s, c)
  }

  function Next(s: State, a: Action): State
    requires Enabled(s, a)
  {
    match a
    case StartRequest(t) => s.(threads := s.threads[t := LoadCurrent])
    case StartLease(t, g) => s.(threads := s.threads[t := On(g, LoadLease)])
    case StartReplace(t, hasHandler) =>
      s.(sets := s.sets + [NewRouteSet(hasHandler)], threads := s.threads[t := On(|s.sets|, ReplaceLock)])
    case StartClose(t) => s.(threads := s.threads[t := CloseLock])
    case StartHijack(c, g) => s.(hijacks := s.hijacks[c := Hijack(g, Registering)])
    case ThreadMoves(t) => Move(s, t)
    case HijackMoves(c) => MoveHijack(s, c)
  }

  // ----- one generation, seen alone -----

  /** A generation with the goroutines and connections that work on it. */
  datatype View = View(r: RouteSet, ops: map<Thread, Op>, stages: map<Connection, Stage>, published: bool)

  function Ops(threads: map<Thread, Pc>, g: nat): map<Thread, Op> {
    map t | t in threads && threads[t].On? && threads[t].g == g :: threads[t].op
  }

  function Stages(hijacks: map<Connection, Hijack>, g: nat): map<Connection, Stage> {
    map c | c in hijacks && hijacks[c].g == g :: hijacks[c].stage
  }

  function ViewOf(s: State, g: nat): View
    requires g < |s.sets|
  {
    View(s.sets[g], Ops(s.threads, g), Stages(s.hijacks, g), s.current == Some(g))
  }

  function Holders(ops: map<Thread, Op>): set<Thread> {
    set t | t in ops && ops[t].Holding?
  }

  /** The goroutine has yet to retire the generation. */
  predicate WillRetire(op: Op) {
    op.ReplaceLock? || op.RetireLoad? || op.RetireCas?
  }

  /** The goroutine has retired the generation and has yet to stop it. */
  predicate WillStop(op: Op) {
    op.RetireHijack? || op.RetireConnections? || op.RetireDrain? || op.Unlock? || op.WaitDrained?
  }

  predicate Owns(op: Op) {
    WillRetire(op) || WillStop(op)
  }

  /** The goroutine is going to close the drained channel. */
  predicate WillDrain(op: Op) {
    op.CloseDrained? || op.RetireDrain? || (op.RetireHijack? && op.last) || (op.RetireConnections? && op.last)
  }

  predicate HasMutex(op: Op) {
    Owns(op) && !op.ReplaceLock? && !op.WaitDrained?
  }

  /** The word counts the holders, and a compare-and-swap that can succeed saw the bit clear. */
  ghost predicate WordInv(v: View) {
    && v.r.word < WORDS && Count(v.r.word) == |Holders(v.ops)|
    && (forall t :: t in v.ops && (v.ops[t].CasRequest? || v.ops[t].CasLease? || v.ops[t].RetireCas?) ==> !IsRetired(v.ops[t].seen))
  }

  /** A generation is published, or owned by one goroutine, or stopped, and only one of these. */
  ghost predicate OwnerInv(v: View) {
    && v.r.stops <= 1
    && !(v.published && v.r.stops == 1)
    && (v.published || v.r.stops == 1 || exists t :: t in v.ops && Owns(v.ops[t]))
    && (forall t :: t in v.ops && Owns(v.ops[t]) ==> !v.published && v.r.stops == 0)
    && (forall t, u :: t in v.ops && u in v.ops && Owns(v.ops[t]) && Owns(v.ops[u]) ==> t == u)
  }

  /** The bit is clear up to the owner's compare-and-swap and set from then on. */
  ghost predicate PhaseInv(v: View) {
    && (v.published ==> !IsRetired(v.r.word))
    && (v.r.stops > 0 ==> v.r.drained)
    && (forall t :: t in v.ops && WillRetire(v.ops[t]) ==> !IsRetired(v.r.word))
    && (forall t :: t in v.ops && WillStop(v.ops[t]) ==> IsRetired(v.r.word))
  }

  /** The channel is closed, or about to be, exactly when the generation is retired and unheld. */
  ghost predicate DrainInv(v: View) {
    && (v.r.drained ==> IsRetired(v.r.word) && Count(v.r.word) == 0)
    && (forall t :: t in v.ops && WillDrain(v.ops[t]) ==> IsRetired(v.r.word) && Count(v.r.word) == 0)
    && (IsRetired(v.r.word) && Count(v.r.word) == 0 ==> v.r.drained || exists t :: t in v.ops && WillDrain(v.ops[t]))
  }

  /** Every registered connection of a generation is reachable by its retirer, or closed. */
  ghost predicate HijackInv(v: View, closed: set<Connection>) {
    && (forall c :: v.r.hijackMu == Some(c) ==> c in v.stages && v.stages[c].Adding?)
    && (forall c :: c in v.stages && v.stages[c].Adding? ==> v.r.hijackMu == Some(c))
    && (IsRetired(v.r.word) && !(exists t :: t in v.ops && v.ops[t].RetireHijack?) ==> v.r.hijacked == {} && v.r.hijackMu.None?)
    && (forall c :: c in v.stages && v.stages[c].Registered? ==>
          || c in v.r.hijacked || c in closed
          || exists t :: t in v.ops && v.ops[t].RetireConnections? && c in v.ops[t].connections)
    && (forall c :: c in v.stages && v.stages[c].ClosedSelf? ==> c in closed)
  }

  /** Only connections of a retired generation are closed, and only by its retirer or at registration. */
  ghost predicate CloseInv(v: View, closed: set<Connection>) {
    && (forall c :: c in v.r.hijacked ==> c in v.stages && v.stages[c].Registered?)
    && (forall t :: t in v.ops && v.ops[t].RetireConnections? ==> v.ops[t].connections <= v.stages.Keys)
    && (forall c :: c in v.stages && (c in closed || v.stages[c].Refused?) ==> IsRetired(v.r.word))
  }

  ghost predicate ViewInv(v: View, closed: set<Connection>) {
    WordInv(v) && OwnerInv(v) && PhaseInv(v) && DrainInv(v) && HijackInv(v, closed) && CloseInv(v, closed)
  }

  ghost predicate Bounded(v: View) {
    |Holders(v.ops)| < RETIRED
  }

  // ----- what each kind of step does to the generation it works on -----

  function Moved(v: View, t: Thread): View
    requires t in v.ops
  {
    var after := LocalAfter(v.r, v.ops[t]);
    v.(r := LocalSet(v.r, v.ops[t]), ops := if after.Stay? then v.ops[t := after.op] else v.ops - {t})
  }

  function Closed(op: Op): set<Connection> {
    if op.RetireConnections? then op.connections else {}
  }

  predicate CanMoveOn(v: View, t: Thread) {
    t in v.ops && Ready(v.r, v.ops[t]) && IsLocal(v.ops[t])
  }

  lemma HoldersPut(ops: map<Thread, Op>, t: Thread, op: Op)
    ensures |Holders(ops[t := op])|
         == |Holders(ops)| - (if t in ops && ops[t].Holding? then 1 else 0) + (if op.Holding? then 1 else 0)
  {
    if op.Holding? {
      assert Holders(ops[t := op]) == Holders(ops) + {t};
    } else {
      assert Holders(ops[t := op]) == Holders(ops) - {t};
    }
  }

  lemma HoldersDrop(ops: map<Thread, Op>, t: Thread)
    ensures |Holders(ops - {t})| == |Holders(ops)| - (if t in ops && ops[t].Holding? then 1 else 0)
  {
    assert Holders(ops - {t}) == Holders(ops) - {t};
  }

  lemma HoldersMoved(v: View, t: Thread)
    requires CanMoveOn(v, t)
    ensures |Holders(Moved(v, t).ops)|
         == |Holders(v.ops)| - (if v.ops[t].Holding? then 1 else 0)
              + (if LocalAfter(v.r, v.ops[t]) == Stay(Holding) then 1 else 0)
  {
    var after := LocalAfter(v.r, v.ops[t]);
    if after.Stay? {
      HoldersPut(v.ops, t, after.op);
    } else {
      HoldersDrop(v.ops, t);
    }
  }

  lemma MoveKeepsWord(v: View, t: Thread)
    requires CanMoveOn(v, t) && WordInv(v) && Bounded(Moved(v, t))
    ensures WordInv(Moved(v, t))
    ensures IsRetired(Moved(v, t).r.word) <==> IsRetired(v.r.word) || v.ops[t] == RetireCas(v.r.word)
  {
    HoldersMoved(v, t);
  }

  lemma MoveKeepsOwner(v: View, t: Thread)
    requires CanMoveOn(v, t) && OwnerInv(v) && PhaseInv(v)
    ensures OwnerInv(Moved(v, t))
  {
    var w := Moved(v, t);
    if u :| u in v.ops && Owns(v.ops[u]) {
      assert w.r.stops == 1 || (u in w.ops && Owns(w.ops[u]));
    }
  }

  lemma MoveKeepsPhase(v: View, t: Thread)
    requires CanMoveOn(v, t) && WordInv(v) && OwnerInv(v) && PhaseInv(v) && Bounded(Moved(v, t))
    ensures PhaseInv(Moved(v, t))
  {
    MoveKeepsWord(v, t);
  }

  lemma MoveKeepsDrain(v: View, t: Thread)
    requires CanMoveOn(v, t) && WordInv(v) && PhaseInv(v) && DrainInv(v) && Bounded(Moved(v, t))
    ensures DrainInv(Moved(v, t))
  {
    MoveKeepsWord(v, t);
    HoldersMoved(v, t);
    var w := Moved(v, t);
    if u :| u in v.ops && WillDrain(v.ops[u]) {
      assert w.r.drained || (u in w.ops && WillDrain(w.ops[u]));
    }
    assert t in w.ops && WillDrain(w.ops[t]) ==> IsRetired(w.r.word) && Count(w.r.word) == 0;
    if IsRetired(w.r.word) && Count(w.r.word) == 0 && !(IsRetired(v.r.word) && Count(v.r.word) == 0) {
      assert t in w.ops && WillDrain(w.ops[t]);
    }
  }

  /** After the retirer took the connections, there are none and none is being added. */
  lemma MoveKeepsTaken(v: View, t: Thread, closed: set<Connection>)
    requires CanMoveOn(v, t) && WordInv(v) && PhaseInv(v) && HijackInv(v, closed) && Bounded(Moved(v, t))
    ensures var w := Moved(v, t);
      IsRetired(w.r.word) && !(exists u :: u in w.ops && w.ops[u].RetireHijack?) ==> w.r.hijacked == {} && w.r.hijackMu.None?
  {
    var w := Moved(v, t);
    MoveKeepsWord(v, t);
    if u :| u in v.ops && v.ops[u].RetireHijack? && u != t {
      assert w.ops[u].RetireHijack?;
    } else if v.ops[t] == RetireCas(v.r.word) {
      assert w.ops[t].RetireHijack?;
    }
  }

  lemma MoveKeepsHijack(v: View, t: Thread, closed: set<Connection>)
    requires CanMoveOn(v, t) && WordInv(v) && PhaseInv(v) && HijackInv(v, closed) && Bounded(Moved(v, t))
    ensures HijackInv(Moved(v, t), closed + Closed(v.ops[t]))
  {
    var w := Moved(v, t);
    MoveKeepsTaken(v, t, closed);
    assert w.stages == v.stages && w.r.hijackMu == v.r.hijackMu;
    forall c | c in v.stages && v.stages[c].Registered?
      ensures || c in w.r.hijacked || c in closed + Closed(v.ops[t])
              || exists u :: u in w.ops && w.ops[u].RetireConnections? && c in w.ops[u].connections
    {
      MoveKeepsReach(v, t, closed, c);
    }
  }

  lemma MoveKeepsClose(v: View, t: Thread, closed: set<Connection>)
    requires CanMoveOn(v, t) && WordInv(v) && PhaseInv(v) && CloseInv(v, closed) && Bounded(Moved(v, t))
    ensures CloseInv(Moved(v, t), closed + Closed(v.ops[t]))
  {
    var w := Moved(v, t);
    MoveKeepsWord(v, t);
    assert w.stages == v.stages && w.r.hijacked <= v.r.hijacked;
    assert v.ops[t].RetireConnections? ==> IsRetired(v.r.word);
    forall u | u in w.ops && w.ops[u].RetireConnections?
      ensures w.ops[u].connections <= v.stages.Keys
    {
      if u == t {
        assert v.ops[t].RetireHijack? && w.ops[t].connections == v.r.hijacked;
      } else {
        assert v.ops[u] == w.ops[u];
      }
    }
  }

  lemma MoveKeepsReach(v: View, t: Thread, closed: set<Connection>, c: Connection)
    requires CanMoveOn(v, t) && HijackInv(v, closed) && c in v.stages && v.stages[c].Registered?
    ensures var w := Moved(v, t);
      || c in w.r.hijacked || c in closed + Closed(v.ops[t])
      || exists u :: u in w.ops && w.ops[u].RetireConnections? && c in w.ops[u].connections
  {
    var w := Moved(v, t);
    if u :| u in v.ops && v.ops[u].RetireConnections? && c in v.ops[u].connections && u != t {
      assert w.ops[u].RetireConnections?;
    } else if v.ops[t].RetireHijack? {
      assert w.ops[t].RetireConnections?;
    }
  }

  lemma MoveKeeps(v: View, t: Thread, closed: set<Connection>)
    requires CanMoveOn(v, t) && ViewInv(v, closed) && Bounded(Moved(v, t))
    ensures ViewInv(Moved(v, t), closed + Closed(v.ops[t]))
  {
    MoveKeepsWord(v, t);
    MoveKeepsOwner(v, t);
    MoveKeepsPhase(v, t);
    MoveKeepsDrain(v, t);
    MoveKeepsHijack(v, t, closed);
    MoveKeepsClose(v, t, closed);
  }

  function Put(v: View, t: Thread, op: Op): View {
    v.(ops := v.ops[t := op])
  }

  /** Only goroutine `t` is elsewhere in `w`, and it was and is at no operation on connections or the channel. */
  predicate Aside(v: View, w: View, t: Thread) {
    && w.r == v.r && w.stages == v.stages
    && (forall u :: u in v.ops && u != t ==> u in w.ops && w.ops[u] == v.ops[u])
    && (forall u :: u in w.ops && u != t ==> u in v.ops)
    && (t in v.ops ==> IsQuiet(v.ops[t]))
    && (t in w.ops ==> IsQuiet(w.ops[t]))
  }

  predicate IsQuiet(op: Op) {
    op.LoadRequest? || op.LoadLease? || op.ReplaceLock? || op.RetireLoad? || op.Unlock? || op.WaitDrained?
  }

  lemma AsideKeepsWord(v: View, w: View, t: Thread)
    requires Aside(v, w, t) && WordInv(v)
    ensures WordInv(w)
  {
    assert Holders(w.ops) == Holders(v.ops);
  }

  lemma AsideKeepsDrain(v: View, w: View, t: Thread)
    requires Aside(v, w, t) && DrainInv(v)
    ensures DrainInv(w)
  {
    if u :| u in v.ops && WillDrain(v.ops[u]) { assert WillDrain(w.ops[u]); }
  }

  lemma AsideKeepsHijack(v: View, w: View, t: Thread, closed: set<Connection>)
    requires Aside(v, w, t) && HijackInv(v, closed)
    ensures HijackInv(w, closed)
  {
    if u :| u in v.ops && v.ops[u].RetireHijack? { assert w.ops[u].RetireHijack?; }
    forall c | c in v.stages && v.stages[c].Registered?
      ensures || c in w.r.hijacked || c in closed
              || exists u :: u in w.ops && w.ops[u].RetireConnections? && c in w.ops[u].connections
    {
      if u :| u in v.ops && v.ops[u].RetireConnections? && c in v.ops[u].connections {
        assert w.ops[u].RetireConnections?;
      }
    }
  }

  lemma AsideKeeps(v: View, w: View, t: Thread, closed: set<Connection>)
    requires Aside(v, w, t) && WordInv(v) && DrainInv(v) && HijackInv(v, closed) && CloseInv(v, closed)
    ensures WordInv(w) && DrainInv(w) && HijackInv(w, closed) && CloseInv(w, closed)
  {
    AsideKeepsWord(v, w, t);
    AsideKeepsDrain(v, w, t);
    AsideKeepsHijack(v, w, t, closed);
  }

  /** A request or a batch lease arrives at the generation. */
  lemma JoinKeeps(v: View, t: Thread, op: Op, closed: set<Connection>)
    requires t !in v.ops && (op.LoadRequest? || op.LoadLease?) && ViewInv(v, closed)
    ensures ViewInv(Put(v, t, op), closed)
  {
    var w := Put(v, t, op);
    AsideKeeps(v, w, t, closed);
    JoinKeepsOwner(v, t, op);
  }

  lemma JoinKeepsOwner(v: View, t: Thread, op: Op)
    requires t !in v.ops && !Owns(op) && OwnerInv(v) && PhaseInv(v)
    ensures OwnerInv(Put(v, t, op)) && PhaseInv(Put(v, t, op))
  {
    if u :| u in v.ops && Owns(v.ops[u]) { assert Owns(Put(v, t, op).ops[u]); }
  }

  /** The owner leaves the handler's mutex, or enters it with a generation that was never published. */
  lemma OwnerKeeps(v: View, t: Thread, op: Op, closed: set<Connection>)
    requires t in v.ops && ViewInv(v, closed)
    requires (v.ops[t].Unlock? && op.WaitDrained?) || (v.ops[t].ReplaceLock? && op.RetireLoad?)
    ensures ViewInv(Put(v, t, op), closed)
  {
    var w := Put(v, t, op);
    AsideKeeps(v, w, t, closed);
    assert Owns(w.ops[t]);
  }

  lemma PublishKeeps(v: View, t: Thread, closed: set<Connection>)
    requires t in v.ops && v.ops[t].ReplaceLock? && ViewInv(v, closed)
    ensures !v.published && ViewInv(v.(ops := v.ops - {t}, published := true), closed)
  {
    AsideKeeps(v, v.(ops := v.ops - {t}, published := true), t, closed);
  }

  lemma UnpublishKeeps(v: View, t: Thread, closed: set<Connection>)
    requires t !in v.ops && v.published && ViewInv(v, closed)
    ensures ViewInv(Put(v, t, RetireLoad).(published := false), closed)
  {
    var w := Put(v, t, RetireLoad).(published := false);
    AsideKeeps(v, w, t, closed);
    assert Owns(w.ops[t]);
  }

  lemma CreatedInv(hasHandler: bool, t: Thread, closed: set<Connection>)
    ensures ViewInv(View(NewRouteSet(hasHandler), map[t := ReplaceLock], map[], false), closed)
  {
    assert Holders(map[t := ReplaceLock]) == {};
    assert Owns(map[t := ReplaceLock][t]);
  }

  predicate CanMoveStage(v: View, c: Connection) {
    && c in v.stages
    && match v.stages[c]
       case Registering | Registered => v.r.hijackMu.None?
       case Adding | Refused => true
       case _ => false
  }

  function MovedStage(v: View, c: Connection): View
    requires c in v.stages
  {
    v.(r := HijackSet(v.r, c, v.stages[c]), stages := v.stages[c := HijackStage(v.r, v.stages[c])])
  }

  lemma StageKeepsHijack(v: View, c: Connection, closed: set<Connection>)
    requires CanMoveStage(v, c) && HijackInv(v, closed)
    ensures HijackInv(MovedStage(v, c), closed + if v.stages[c].Refused? then {c} else {})
  {
    var w := MovedStage(v, c);
    assert forall d :: d in v.r.hijacked && d != c ==> d in w.r.hijacked;
  }

  lemma StageKeepsClose(v: View, c: Connection, closed: set<Connection>)
    requires CanMoveStage(v, c) && HijackInv(v, closed) && CloseInv(v, closed)
    ensures CloseInv(MovedStage(v, c), closed + if v.stages[c].Refused? then {c} else {})
  {
  }

  lemma StageKeeps(v: View, c: Connection, closed: set<Connection>)
    requires CanMoveStage(v, c) && ViewInv(v, closed)
    ensures ViewInv(MovedStage(v, c), closed + if v.stages[c].Refused? then {c} else {})
  {
    StageKeepsHijack(v, c, closed);
    StageKeepsClose(v, c, closed);
    SameWord(v, MovedStage(v, c));
  }

  /** Hijacking touches nothing that the rest of the invariant reads. */
  lemma SameWord(v: View, w: View)
    requires WordInv(v) && OwnerInv(v) && PhaseInv(v) && DrainInv(v)
    requires w.ops == v.ops && w.published == v.published
    requires w.r.word == v.r.word && w.r.drained == v.r.drained && w.r.stops == v.r.stops
    ensures WordInv(w) && OwnerInv(w) && PhaseInv(w) && DrainInv(w)
  {
  }

  lemma HijackStartKeeps(v: View, c: Connection, closed: set<Connection>)
    requires c !in v.stages && c !in closed && ViewInv(v, closed)
    ensures ViewInv(v.(stages := v.stages[c := Registering]), closed)
  {
  }

  // ----- the whole handler -----

  ghost predicate Global(s: State) {
    && (s.closed <==> s.current.None?)
    && (s.current.Some? ==> s.current.value < |s.sets|)
    && (forall t :: t in s.threads && s.threads[t].On? ==> s.threads[t].g < |s.sets|)
    && MutexInv(s)
    && (forall c :: c in s.hijacks ==> s.hijacks[c].g < |s.sets|)
    && s.closedConnections <= s.hijacks.Keys
  }

  ghost predicate Inv(s: State) {
    && Global(s)
    && forall g :: 0 <= g < |s.sets| ==> ViewInv(ViewOf(s, g), s.closedConnections)
  }

  ghost predicate AllBounded(s: State) {
    forall g :: 0 <= g < |s.sets| ==> Bounded(ViewOf(s, g))
  }

  lemma InitInv(hasHandler: bool)
    ensures Inv(Init(hasHandler))
  {
    var v := ViewOf(Init(hasHandler), 0);
    assert v.ops == map[] && v.stages == map[];
    assert Holders(v.ops) == {};
  }

  lemma OpsOf(threads: map<Thread, Pc>, t: Thread, pc: Pc, g: nat)
    ensures Ops(threads[t := pc], g) ==
      if pc.On? && pc.g == g then Ops(threads, g)[t := pc.op] else Ops(threads, g) - {t}
    ensures t !in Ops(threads, g) ==> Ops(threads, g) - {t} == Ops(threads, g)
  {
  }

  lemma StagesOf(hijacks: map<Connection, Hijack>, c: Connection, h: Hijack, g: nat)
    ensures Stages(hijacks[c := h], g) == if h.g == g then Stages(hijacks, g)[c := h.stage] else Stages(hijacks, g) - {c}
    ensures c !in Stages(hijacks, g) ==> Stages(hijacks, g) - {c} == Stages(hijacks, g)
  {
  }

  /** Closing connections of other generations never hurts. */
  lemma MoreClosed(v: View, closed: set<Connection>, more: set<Connection>)
    requires ViewInv(v, closed) && more !! v.stages.Keys
    ensures ViewInv(v, closed + more)
  {
  }

  lemma ClosesItsOwn(s: State, t: Thread)
    requires Inv(s) && t in s.threads && s.threads[t].On?
    ensures Closed(s.threads[t].op) <= Stages(s.hijacks, s.threads[t].g).Keys
  {
    assert ViewOf(s, s.threads[t].g).ops[t] == s.threads[t].op;
  }

  ghost predicate MutexInv(s: State) {
    && (forall t :: t in s.threads && s.threads[t].On? && HasMutex(s.threads[t].op) ==> s.mu == Some(t))
    && (s.mu.Some? ==> s.mu.value in s.threads && s.threads[s.mu.value].On? && HasMutex(s.threads[s.mu.value].op))
  }

  lemma MoveKeepsMutex(s: State, t: Thread)
    requires MutexInv(s) && CanMove(s, t)
    ensures MutexInv(Move(s, t))
  {
    MovesOne(s, t);
  }

  lemma MoveKeepsGlobal(s: State, t: Thread)
    requires Global(s) && CanMove(s, t)
    requires s.threads[t].On? ==> Closed(s.threads[t].op) <= s.hijacks.Keys
    ensures Global(Move(s, t))
  {
    MoveKeepsMutex(s, t);
  }

  lemma LocalOwnView(s: State, t: Thread, g: nat)
    requires CanMove(s, t) && g < |s.sets| && s.threads[t].On? && s.threads[t].g == g && IsLocal(s.threads[t].op)
    requires ViewInv(ViewOf(s, g), s.closedConnections) && Bounded(ViewOf(Move(s, t), g))
    ensures ViewInv(ViewOf(Move(s, t), g), Move(s, t).closedConnections)
  {
    var v, n := ViewOf(s, g), Move(s, t);
    OpsOf(s.threads, t, n.threads[t], g);
    assert ViewOf(n, g) == Moved(v, t);
    MoveKeeps(v, t, s.closedConnections);
  }

  lemma LocalOtherView(s: State, t: Thread, g: nat)
    requires CanMove(s, t) && g < |s.sets| && s.threads[t].On? && s.threads[t].g != g && IsLocal(s.threads[t].op)
    requires ViewInv(ViewOf(s, g), s.closedConnections) && Closed(s.threads[t].op) <= Stages(s.hijacks, s.threads[t].g).Keys
    ensures ViewInv(ViewOf(Move(s, t), g), Move(s, t).closedConnections)
  {
    var v, n := ViewOf(s, g), Move(s, t);
    OpsOf(s.threads, t, n.threads[t], g);
    assert ViewOf(n, g) == v;
    MoreClosed(v, s.closedConnections, Closed(s.threads[t].op));
  }

  lemma LocalView(s: State, t: Thread, g: nat)
    requires Inv(s) && CanMove(s, t) && g < |s.sets| && s.threads[t].On? && IsLocal(s.threads[t].op)
    requires Bounded(ViewOf(Move(s, t), g))
    ensures ViewInv(ViewOf(Move(s, t), g), Move(s, t).closedConnections)
  {
    if s.threads[t].g == g {
      LocalOwnView(s, t, g);
    } else {
      ClosesItsOwn(s, t);
      LocalOtherView(s, t, g);
    }
  }

  /** A step of the handler itself, seen by the generation that the goroutine works on. */
  lemma HandlerOwnView(s: State, t: Thread, g: nat)
    requires Global(s) && CanMove(s, t) && g < |s.sets| && ViewInv(ViewOf(s, g), s.closedConnections)
    requires s.threads[t].On? && s.threads[t].g == g && !IsLocal(s.threads[t].op)
    ensures ViewInv(ViewOf(Move(s, t), g), s.closedConnections)
  {
    var v, n := ViewOf(s, g), Move(s, t);
    OpsOf(s.threads, t, n.threads[t], g);
    if s.threads[t].op.ReplaceLock? && !s.closed {
      PublishKeeps(v, t, s.closedConnections);
      assert ViewOf(n, g) == v.(ops := v.ops - {t}, published := true);
    } else {
      OwnerKeeps(v, t, n.threads[t].op, s.closedConnections);
      assert ViewOf(n, g) == Put(v, t, n.threads[t].op);
    }
  }

  /** A request takes the current generation. */
  lemma RequestView(s: State, t: Thread, g: nat)
    requires Global(s) && CanMove(s, t) && g < |s.sets| && ViewInv(ViewOf(s, g), s.closedConnections)
    requires s.threads[t].LoadCurrent?
    ensures ViewInv(ViewOf(Move(s, t), g), s.closedConnections)
  {
    var v, n := ViewOf(s, g), Move(s, t);
    OpsOf(s.threads, t, n.threads[t], g);
    if n.threads[t] == On(g, LoadRequest) {
      JoinKeeps(v, t, LoadRequest, s.closedConnections);
      assert ViewOf(n, g) == Put(v, t, LoadRequest);
    } else {
      assert ViewOf(n, g) == v;
    }
  }

  /** Replace and Close unpublish the current generation, and leave all but their own and that one alone. */
  lemma UnpublishView(s: State, t: Thread, g: nat)
    requires Global(s) && CanMove(s, t) && g < |s.sets| && ViewInv(ViewOf(s, g), s.closedConnections)
    requires s.threads[t].CloseLock? || (s.threads[t].On? && s.threads[t].g != g && !IsLocal(s.threads[t].op))
    ensures ViewInv(ViewOf(Move(s, t), g), s.closedConnections)
  {
    var v, n := ViewOf(s, g), Move(s, t);
    OpsOf(s.threads, t, n.threads[t], g);
    if n.threads[t] == On(g, RetireLoad) {
      UnpublishKeeps(v, t, s.closedConnections);
      assert ViewOf(n, g) == Put(v, t, RetireLoad).(published := false);
    } else {
      assert ViewOf(n, g) == v;
    }
  }

  /** The steps that read or write the handler itself. */
  lemma HandlerView(s: State, t: Thread, g: nat)
    requires Inv(s) && CanMove(s, t) && g < |s.sets| && !(s.threads[t].On? && IsLocal(s.threads[t].op))
    ensures |Move(s, t).sets| == |s.sets| && ViewInv(ViewOf(Move(s, t), g), Move(s, t).closedConnections)
  {
    if s.threads[t].On? && s.threads[t].g == g {
      HandlerOwnView(s, t, g);
    } else if s.threads[t].LoadCurrent? {
      RequestView(s, t, g);
    } else {
      UnpublishView(s, t, g);
    }
  }

  lemma MoveKeepsInv(s: State, t: Thread)
    requires Inv(s) && CanMove(s, t) && AllBounded(Move(s, t))
    ensures Inv(Move(s, t))
  {
    if s.threads[t].On? {
      ClosesItsOwn(s, t);
    }
    MoveKeepsGlobal(s, t);
    forall g | 0 <= g < |s.sets|
      ensures ViewInv(ViewOf(Move(s, t), g), Move(s, t).closedConnections)
    {
      if s.threads[t].On? && IsLocal(s.threads[t].op) {
        LocalView(s, t, g);
      } else {
        HandlerView(s, t, g);
      }
    }
  }

  lemma MoveHijackKeepsInv(s: State, c: Connection)
    requires Inv(s) && CanMoveHijack(s, c)
    ensures Inv(MoveHijack(s, c))
  {
    var n := MoveHijack(s, c);
    forall g | 0 <= g < |s.sets|
      ensures ViewInv(ViewOf(n, g), n.closedConnections)
    {
      var v := ViewOf(s, g);
      StagesOf(s.hijacks, c, n.hijacks[c], g);
      if s.hijacks[c].g == g {
        assert ViewOf(n, g) == MovedStage(v, c);
        StageKeeps(v, c, s.closedConnections);
      } else {
        assert ViewOf(n, g) == v;
        MoreClosed(v, s.closedConnections, if s.hijacks[c].stage.Refused? then {c} else {});
      }
    }
  }

  lemma StartKeepsInv(s: State, a: Action)
    requires Inv(s) && Enabled(s, a) && (a.StartRequest? || a.StartLease? || a.StartClose?)
    ensures Inv(Next(s, a))
  {
    var n := Next(s, a);
    forall g | 0 <= g < |s.sets|
      ensures ViewInv(ViewOf(n, g), n.closedConnections)
    {
      var v := ViewOf(s, g);
      OpsOf(s.threads, a.t, n.threads[a.t], g);
      if a == StartLease(a.t, g) {
        assert ViewOf(n, g) == Put(v, a.t, LoadLease);
        JoinKeeps(v, a.t, LoadLease, s.closedConnections);
      } else {
        assert ViewOf(n, g) == v;
      }
    }
  }

  lemma StartReplaceKeepsInv(s: State, t: Thread, hasHandler: bool)
    requires Inv(s) && t !in s.threads
    ensures Inv(Next(s, StartReplace(t, hasHandler)))
  {
    var n := Next(s, StartReplace(t, hasHandler));
    forall g | 0 <= g < |n.sets|
      ensures ViewInv(ViewOf(n, g), n.closedConnections)
    {
      OpsOf(s.threads, t, n.threads[t], g);
      if g < |s.sets| {
        assert ViewOf(n, g) == ViewOf(s, g);
      } else {
        assert Ops(s.threads, g) == map[] && Stages(s.hijacks, g) == map[];
        CreatedInv(hasHandler, t, s.closedConnections);
      }
    }
  }

  lemma StartHijackKeepsInv(s: State, c: Connection, g: nat)
    requires Inv(s) && c !in s.hijacks && g < |s.sets|
    ensures Inv(Next(s, StartHijack(c, g)))
  {
    var n := Next(s, StartHijack(c, g));
    forall h | 0 <= h < |s.sets|
      ensures ViewInv(ViewOf(n, h), n.closedConnections)
    {
      var v := ViewOf(s, h);
      StagesOf(s.hijacks, c, Hijack(g, Registering), h);
      if h == g {
        assert ViewOf(n, h) == v.(stages := v.stages[c := Registering]);
        HijackStartKeeps(v, c, s.closedConnections);
      } else {
        assert ViewOf(n, h) == v;
      }
    }
  }

  lemma StepKeepsInv(s: State, a: Action)
    requires Inv(s) && Enabled(s, a) && AllBounded(Next(s, a))
    ensures Inv(Next(s, a))
  {
    match a
    case StartReplace(t, hasHandler) => StartReplaceKeepsInv(s, t, hasHandler);
    case StartHijack(c, g) => StartHijackKeepsInv(s, c, g);
    case ThreadMoves(t) => MoveKeepsInv(s, t);
    case HijackMoves(c) => MoveHijackKeepsInv(s, c);
    case _ => StartKeepsInv(s, a);
  }

  // ----- whole runs -----

  /** A run of the handler, its count of holders never reaching the retired bit. */
  ghost predicate IsRun(states: seq<State>, actions: seq<Action>) {
    && |states| == |actions| + 1
    && (exists hasHandler :: states[0] == Init(hasHandler))
    && (forall i :: 0 <= i < |states| ==> AllBounded(states[i]))
    && (forall i :: 0 <= i < |actions| ==> Enabled(states[i], actions[i]) && states[i + 1] == Next(states[i], actions[i]))
  }

  lemma {:induction false} RunKeepsInv(states: seq<State>, actions: seq<Action>, i: nat)
    requires IsRun(states, actions) && i < |states|
    ensures Inv(states[i])
  {
    if i == 0 {
      var hasHandler :| states[0] == Init(hasHandler);
      InitInv(hasHandler);
    } else {
      var j := i - 1;
      RunKeepsInv(states, actions, j);
      assert AllBounded(states[i]) && states[j + 1] == Next(states[j], actions[j]);
      StepKeepsInv(states[j], actions[j]);
    }
  }

  /**
   * Drain safety. The published generation is never retired, a stop runs at most once, and a
   * stopped generation is retired, unpublished and held by nobody. The drained channel is closed
   * exactly when the generation is retired, nobody holds it and nobody is about to close the channel.
   */
  lemma DrainSafety(states: seq<State>, actions: seq<Action>, i: nat, g: nat)
    requires IsRun(states, actions) && i < |states| && g < |states[i].sets|
    ensures var s := states[i];
      && (s.current == Some(g) ==> !IsRetired(s.sets[g].word) && s.sets[g].stops == 0)
      && s.sets[g].stops <= 1
      && (s.sets[g].stops == 1 ==> IsRetired(s.sets[g].word) && Unheld(s, g))
      && (s.sets[g].drained ==> IsRetired(s.sets[g].word) && Unheld(s, g))
      && (IsRetired(s.sets[g].word) && Unheld(s, g) && !AboutToDrain(s, g) ==> s.sets[g].drained)
  {
    var s := states[i];
    RunKeepsInv(states, actions, i);
    var v := ViewOf(s, g);
    assert ViewInv(v, s.closedConnections);
    assert forall t :: t in s.threads && s.threads[t] == On(g, Holding) ==> t in Holders(v.ops);
    if Unheld(s, g) {
      assert Holders(v.ops) == {};
    }
  }

  ghost predicate Unheld(s: State, g: nat) {
    forall t :: t in s.threads ==> s.threads[t] != On(g, Holding)
  }

  /** Some goroutine of the generation is on its way to close the drained channel. */
  ghost predicate AboutToDrain(s: State, g: nat) {
    exists t :: t in s.threads && s.threads[t].On? && s.threads[t].g == g && WillDrain(s.threads[t].op)
  }

  /** One step never undoes a retirement or a stop, and lets nobody take a retired generation. */
  lemma MoveIsFinal(v: View, t: Thread)
    requires CanMoveOn(v, t) && WordInv(v) && Bounded(Moved(v, t))
    ensures IsRetired(v.r.word) ==> IsRetired(Moved(v, t).r.word)
    ensures v.r.stops <= Moved(v, t).r.stops
    ensures IsRetired(v.r.word) && !v.ops[t].Holding? ==> t !in Holders(Moved(v, t).ops)
  {
    MoveKeepsWord(v, t);
  }

  ghost predicate IsFinal(s: State, n: State, g: nat)
    requires g < |s.sets|
  {
    && g < |n.sets| && s.sets[g].stops <= n.sets[g].stops
    && (IsRetired(s.sets[g].word) ==>
          && IsRetired(n.sets[g].word)
          && forall t :: t in n.threads && n.threads[t] == On(g, Holding) ==> t in s.threads && s.threads[t] == On(g, Holding))
  }

  lemma LocalStepIsFinal(s: State, t: Thread, g: nat)
    requires CanMove(s, t) && g < |s.sets| && s.threads[t].On? && s.threads[t].g == g && IsLocal(s.threads[t].op)
    requires WordInv(ViewOf(s, g)) && Bounded(ViewOf(Move(s, t), g))
    ensures IsFinal(s, Move(s, t), g)
  {
    var v, n := ViewOf(s, g), Move(s, t);
    OpsOf(s.threads, t, n.threads[t], g);
    assert ViewOf(n, g) == Moved(v, t);
    MoveIsFinal(v, t);
    assert n.threads[t] == On(g, Holding) ==> t in Holders(Moved(v, t).ops);
  }

  lemma OtherStepIsFinal(s: State, t: Thread, g: nat)
    requires CanMove(s, t) && g < |s.sets| && !(s.threads[t].On? && s.threads[t].g == g && IsLocal(s.threads[t].op))
    ensures IsFinal(s, Move(s, t), g)
  {
    var n := Move(s, t);
    assert n.sets[g] == s.sets[g] && n.threads[t] != On(g, Holding);
  }

  lemma StepIsFinal(s: State, a: Action, g: nat)
    requires Inv(s) && Enabled(s, a) && AllBounded(Next(s, a)) && g < |s.sets|
    ensures IsFinal(s, Next(s, a), g)
  {
    if a.ThreadMoves? {
      if s.threads[a.t].On? && s.threads[a.t].g == g && IsLocal(s.threads[a.t].op) {
        LocalStepIsFinal(s, a.t, g);
      } else {
        OtherStepIsFinal(s, a.t, g);
      }
    }
  }

  /**
   * From its retirement on, a generation stays retired and nobody takes it who does not hold it
   * already; from its stop on, it stays stopped.
   */
  lemma {:induction false} RetiredForever(states: seq<State>, actions: seq<Action>, i: nat, j: nat, g: nat)
    requires IsRun(states, actions) && i <= j < |states| && g < |states[i].sets|
    ensures IsFinal(states[i], states[j], g)
    decreases j
  {
    if i < j {
      var k := j - 1;
      RetiredForever(states, actions, i, k, g);
      RunKeepsInv(states, actions, k);
      assert AllBounded(states[j]) && states[k + 1] == Next(states[k], actions[k]);
      StepIsFinal(states[k], actions[k], g);
    }
  }

  // ----- connections against retirement -----

  /** Nobody is to take the connections of a generation, or to close those taken. */
  ghost predicate Away(threads: map<Thread, Pc>, g: nat) {
    forall t :: t in threads ==> AwayFrom(threads[t], g)
  }

  predicate AwayFrom(pc: Pc, g: nat) {
    pc.On? && pc.g == g ==> !pc.op.RetireHijack? && !pc.op.RetireConnections?
  }

  /** The retirer of a generation is through with its connections. */
  ghost predicate Severed(s: State, g: nat)
    requires g < |s.sets|
  {
    IsRetired(s.sets[g].word) && Away(s.threads, g)
  }

  /** No operation leads to the connections of a generation that is retired already. */
  lemma LocalStaysAway(r: RouteSet, op: Op, g: nat)
    requires IsRetired(r.word) && AwayFrom(On(g, op), g) && (op.RetireCas? ==> !IsRetired(op.seen))
    ensures AwayFrom(ToPc(g, LocalAfter(r, op)), g)
  {
  }

  lemma MovesOne(s: State, t: Thread)
    requires CanMove(s, t)
    ensures t in Move(s, t).threads && Move(s, t).threads == s.threads[t := Move(s, t).threads[t]]
  {
  }

  lemma MoverStaysAway(s: State, t: Thread, g: nat)
    requires CanMove(s, t) && g < |s.sets| && IsRetired(s.sets[g].word) && AwayFrom(s.threads[t], g)
    requires s.threads[t].On? && s.threads[t].g == g && s.threads[t].op.RetireCas? ==> !IsRetired(s.threads[t].op.seen)
    ensures t in Move(s, t).threads && AwayFrom(Move(s, t).threads[t], g)
  {
    if s.threads[t].On? && s.threads[t].g == g {
      LocalStaysAway(s.sets[g], s.threads[t].op, g);
    }
  }

  lemma MoveStaysAway(s: State, t: Thread, g: nat)
    requires CanMove(s, t) && g < |s.sets| && Severed(s, g) && WordInv(ViewOf(s, g))
    ensures Away(Move(s, t).threads, g)
  {
    assert AwayFrom(s.threads[t], g);
    if s.threads[t].On? && s.threads[t].g == g {
      assert ViewOf(s, g).ops[t] == s.threads[t].op;
    }
    MoverStaysAway(s, t, g);
    MovesOne(s, t);
  }

  /** A call starts elsewhere, and the steps of a connection move no goroutine. */
  lemma StartStaysAway(s: State, a: Action, g: nat)
    requires Enabled(s, a) && !a.ThreadMoves? && Away(s.threads, g)
    ensures Away(Next(s, a).threads, g)
  {
  }

  lemma StepKeepsSevered(s: State, a: Action, g: nat)
    requires Inv(s) && Enabled(s, a) && AllBounded(Next(s, a)) && g < |s.sets| && Severed(s, g)
    ensures g < |Next(s, a).sets| && Severed(Next(s, a), g)
  {
    StepIsFinal(s, a, g);
    if a.ThreadMoves? {
      assert ViewInv(ViewOf(s, g), s.closedConnections);
      MoveStaysAway(s, a.t, g);
    } else {
      StartStaysAway(s, a, g);
    }
  }

  lemma {:induction false} SeveredForever(states: seq<State>, actions: seq<Action>, i: nat, j: nat, g: nat)
    requires IsRun(states, actions) && i <= j < |states| && g < |states[i].sets| && Severed(states[i], g)
    ensures g < |states[j].sets| && Severed(states[j], g)
    decreases j
  {
    if i < j {
      var k := j - 1;
      SeveredForever(states, actions, i, k, g);
      RunKeepsInv(states, actions, k);
      assert AllBounded(states[j]) && states[k + 1] == Next(states[k], actions[k]);
      StepKeepsSevered(states[k], actions[k], g);
    }
  }

  /** The connection was never added to the generation's set: it has yet to ask, or was turned away. */
  predicate NeverAdded(h: Hijack) {
    h.stage.Registering? || h.stage.Refused?
  }

  /**
   * The race of a connection with the retirement of its generation. Once the retirer is through with
   * the connections, there are none for the rest of the run: every connection that ever asked to
   * register was closed, has unregistered itself, or was not added and will not be.
   */
  lemma HijackRace(states: seq<State>, actions: seq<Action>, i: nat, j: nat, g: nat)
    requires IsRun(states, actions) && i <= j < |states| && g < |states[i].sets| && Severed(states[i], g)
    ensures g < |states[j].sets|
    ensures var s := states[j];
      && s.sets[g].hijacked == {} && s.sets[g].hijackMu.None?
      && (forall c :: c in s.hijacks && s.hijacks[c].g == g ==>
            c in s.closedConnections || s.hijacks[c].stage.Unregistered? || NeverAdded(s.hijacks[c]))
  {
    SeveredForever(states, actions, i, j, g);
    RunKeepsInv(states, actions, j);
    var s := states[j];
    var v := ViewOf(s, g);
    assert ViewInv(v, s.closedConnections);
    assert forall t :: t in v.ops ==> AwayFrom(s.threads[t], g) && !v.ops[t].RetireHijack? && !v.ops[t].RetireConnections?;
    forall c | c in s.hijacks && s.hijacks[c].g == g
      ensures c in s.closedConnections || s.hijacks[c].stage.Unregistered? || NeverAdded(s.hijacks[c])
    {
      assert v.stages[c] == s.hijacks[c].stage;
    }
  }

  // ----- what is published, and what requests reach -----

  /** A Replace takes the mutex of an open handler with its new generation. */
  predicate Replaces(s: State, a: Action, g: nat) {
    a.ThreadMoves? && a.t in s.threads && s.threads[a.t] == On(g, ReplaceLock) && !s.closed
  }

  /** The generation of the last Replace that took the mutex of the open handler, or the first one. */
  ghost function LastReplaced(states: seq<State>, actions: seq<Action>, i: nat): nat
    requires i <= |actions| < |states|
  {
    if i == 0 then 0
    else
      var s, a := states[i - 1], actions[i - 1];
      if a.ThreadMoves? && a.t in s.threads && s.threads[a.t].On? && Replaces(s, a, s.threads[a.t].g) then s.threads[a.t].g
      else LastReplaced(states, actions, i - 1)
  }

  /** An open handler serves the generation of the last Replace, and a closed one serves none. */
  lemma {:induction false} LastReplaceIsCurrent(states: seq<State>, actions: seq<Action>, i: nat)
    requires IsRun(states, actions) && i < |states|
    ensures states[i].current == if states[i].closed then None else Some(LastReplaced(states, actions, i))
  {
    if i > 0 {
      var j := i - 1;
      LastReplaceIsCurrent(states, actions, j);
      RunKeepsInv(states, actions, j);
      assert Enabled(states[j], actions[j]) && states[j + 1] == Next(states[j], actions[j]);
    }
  }

  /**
   * Replace publishes. The step in which it takes the mutex of an open handler makes its own
   * generation current, and what it goes on to retire is the one that was current until then.
   */
  lemma ReplacePublishes(states: seq<State>, actions: seq<Action>, k: nat, j: nat, g: nat)
    requires IsRun(states, actions) && k < j < |states| && k < |actions| && Replaces(states[k], actions[k], g)
    ensures states[k].current.Some? && states[k].current.value != g && states[k + 1].current == Some(g)
    ensures states[k + 1].threads[actions[k].t] == On(states[k].current.value, RetireLoad)
    ensures actions[k].t in states[j].threads
    ensures states[j].threads[actions[k].t].Done? || Retires(states[j].threads[actions[k].t], states[k].current.value)
  {
    var s, a := states[k], actions[k];
    assert Enabled(s, a) && states[k + 1] == Next(s, a);
    RunKeepsInv(states, actions, k);
    assert ViewInv(ViewOf(s, g), s.closedConnections) && ViewOf(s, g).ops[a.t].ReplaceLock?;
    RetirerStays(states, actions, k + 1, j, a.t, s.current.value);
  }

  /** What a Replace publishes is the generation that it brought. */
  lemma {:induction false} ReplaceBringsItsOwn(states: seq<State>, actions: seq<Action>, i: nat, t: Thread, g: nat) returns (k: nat)
    requires IsRun(states, actions) && i < |states| && t in states[i].threads && states[i].threads[t] == On(g, ReplaceLock)
    ensures k < i && actions[k].StartReplace? && actions[k].t == t && |states[k].sets| == g
    ensures states[k + 1].sets == states[k].sets + [NewRouteSet(actions[k].hasHandler)]
  {
    var j := i - 1;
    var s, a := states[j], actions[j];
    assert Enabled(s, a) && states[j + 1] == Next(s, a);
    if t in s.threads && s.threads[t] == On(g, ReplaceLock) {
      k := ReplaceBringsItsOwn(states, actions, j, t, g);
    } else {
      k := j;
      if a.ThreadMoves? {
        MovesOne(s, a.t);
        NeverBackToLock(s, a.t);
      }
    }
  }

  lemma NeverBackToLock(s: State, t: Thread)
    requires CanMove(s, t)
    ensures t in Move(s, t).threads && (Move(s, t).threads[t].On? ==> !Move(s, t).threads[t].op.ReplaceLock?)
  {
  }

  /** From the step in which Close takes the mutex on, the handler is closed and serves nothing. */
  lemma {:induction false} CloseIsFinal(states: seq<State>, actions: seq<Action>, k: nat, j: nat, t: Thread)
    requires IsRun(states, actions) && k < j < |states| && actions[k] == ThreadMoves(t) && t in states[k].threads && states[k].threads[t].CloseLock?
    ensures states[j].closed && states[j].current.None?
    decreases j
  {
    var i := j - 1;
    assert Enabled(states[i], actions[i]) && states[i + 1] == Next(states[i], actions[i]);
    RunKeepsInv(states, actions, i);
    if k < i {
      CloseIsFinal(states, actions, k, i, t);
    }
  }

  /** The goroutine is at the retirement of this generation. */
  predicate Retires(pc: Pc, g: nat) {
    pc.On? && pc.g == g && Owns(pc.op) && !pc.op.ReplaceLock?
  }

  lemma {:induction false} RetirerStays(states: seq<State>, actions: seq<Action>, i: nat, j: nat, t: Thread, g: nat)
    requires IsRun(states, actions) && i <= j < |states| && t in states[i].threads && Retires(states[i].threads[t], g)
    ensures t in states[j].threads && (states[j].threads[t].Done? || Retires(states[j].threads[t], g))
    decreases j
  {
    if i < j {
      var k := j - 1;
      RetirerStays(states, actions, i, k, t, g);
      assert Enabled(states[k], actions[k]) && states[k + 1] == Next(states[k], actions[k]);
      if actions[k].ThreadMoves? {
        MovesOne(states[k], actions[k].t);
      }
    }
  }

  /** A step that takes a generation out of service, or finds the handler closed when it was to be published. */
  predicate Supersedes(s: State, a: Action, g: nat) {
    && a.ThreadMoves? && a.t in s.threads
    && if s.closed then s.threads[a.t] == On(g, ReplaceLock)
       else s.current == Some(g) && (s.threads[a.t].CloseLock? || (s.threads[a.t].On? && s.threads[a.t].op.ReplaceLock?))
  }

  ghost predicate Superseded(states: seq<State>, actions: seq<Action>, i: nat, g: nat)
    requires i <= |actions| < |states|
  {
    exists k :: 0 <= k < i && Supersedes(states[k], actions[k], g)
  }

  lemma SupersededLater(states: seq<State>, actions: seq<Action>, i: nat, g: nat)
    requires i < |actions| < |states|
    ensures Superseded(states, actions, i, g) || Supersedes(states[i], actions[i], g) ==> Superseded(states, actions, i + 1, g)
  {
  }

  /** One step brings a goroutine to a retirement only by superseding the generation. */
  lemma RetirerSupersedes(s: State, t: Thread, u: Thread, g: nat)
    requires Inv(s) && CanMove(s, t) && u in Move(s, t).threads && Retires(Move(s, t).threads[u], g)
    ensures u in s.threads
    ensures Retires(s.threads[u], g) || Supersedes(s, ThreadMoves(t), g)
  {
    MovesOne(s, t);
  }

  /** Nothing is retired before it is superseded: every retirement has its Replace or Close. */
  lemma {:induction false} RetiredWasSuperseded(states: seq<State>, actions: seq<Action>, i: nat, g: nat)
    requires IsRun(states, actions) && i < |states|
    ensures forall t :: t in states[i].threads && Retires(states[i].threads[t], g) ==> Superseded(states, actions, i, g)
    ensures g < |states[i].sets| && IsRetired(states[i].sets[g].word) ==> Superseded(states, actions, i, g)
  {
    if i > 0 {
      var j := i - 1;
      var s, a := states[j], actions[j];
      RetiredWasSuperseded(states, actions, j, g);
      RunKeepsInv(states, actions, j);
      assert AllBounded(states[i]) && Enabled(s, a) && states[j + 1] == Next(s, a);
      SupersededLater(states, actions, j, g);
      forall t | t in states[i].threads && Retires(states[i].threads[t], g)
        ensures Superseded(states, actions, i, g)
      {
        if a.ThreadMoves? {
          RetirerSupersedes(s, a.t, t, g);
        }
      }
      if g < |states[i].sets| && IsRetired(states[i].sets[g].word) {
        RetiredBySwap(s, a, g);
      }
    }
  }

  /** The bit is set by the swap of a goroutine that retires the generation. */
  lemma OwnSwapRetires(s: State, t: Thread, g: nat)
    requires CanMove(s, t) && g < |s.sets| && s.threads[t].On? && s.threads[t].g == g && IsLocal(s.threads[t].op)
    requires WordInv(ViewOf(s, g)) && Bounded(ViewOf(Move(s, t), g)) && IsRetired(Move(s, t).sets[g].word)
    ensures IsRetired(s.sets[g].word) || Retires(s.threads[t], g)
  {
    var v := ViewOf(s, g);
    OpsOf(s.threads, t, Move(s, t).threads[t], g);
    assert ViewOf(Move(s, t), g) == Moved(v, t);
    MoveKeepsWord(v, t);
  }

  lemma OtherMoveKeepsWord(s: State, a: Action, g: nat)
    requires Enabled(s, a) && g < |s.sets|
    requires !(a.ThreadMoves? && s.threads[a.t].On? && s.threads[a.t].g == g && IsLocal(s.threads[a.t].op))
    ensures g < |Next(s, a).sets| && Next(s, a).sets[g].word == s.sets[g].word
  {
  }

  lemma CreatedUnretired(s: State, a: Action, g: nat)
    requires Enabled(s, a) && |s.sets| <= g < |Next(s, a).sets|
    ensures !IsRetired(Next(s, a).sets[g].word)
  {
  }

  lemma RetiredBySwap(s: State, a: Action, g: nat)
    requires Inv(s) && Enabled(s, a) && AllBounded(Next(s, a)) && g < |Next(s, a).sets| && IsRetired(Next(s, a).sets[g].word)
    ensures g < |s.sets|
    ensures IsRetired(s.sets[g].word) || (a.ThreadMoves? && a.t in s.threads && Retires(s.threads[a.t], g))
  {
    if g >= |s.sets| {
      CreatedUnretired(s, a, g);
    } else if a.ThreadMoves? && s.threads[a.t].On? && s.threads[a.t].g == g && IsLocal(s.threads[a.t].op) {
      assert ViewInv(ViewOf(s, g), s.closedConnections);
      OwnSwapRetires(s, a.t, g);
    } else {
      OtherMoveKeepsWord(s, a, g);
    }
  }

  /** The handler serves requests with this generation. */
  predicate Serves(s: State, g: nat) {
    s.current == Some(g) && g < |s.sets| && s.sets[g].hasHandler
  }

  /** A request looks for a generation and finds none to be served by. */
  predicate MeetsNothing(s: State, a: Action, t: Thread) {
    && a == ThreadMoves(t) && t in s.threads && s.threads[t].LoadCurrent?
    && (s.current.None? || (s.current.value < |s.sets| && !s.sets[s.current.value].hasHandler))
  }

  predicate IsRequest(op: Op) {
    op.LoadRequest? || op.CasRequest? || op.Holding? || op.CloseDrained?
  }

  /** Some generation served at some time since the request started. */
  ghost predicate ServedSince(states: seq<State>, b: nat, i: nat, g: nat)
    requires i <= |states|
  {
    exists k :: b < k < i && Serves(states[k], g)
  }

  /** The request has held a generation. */
  ghost predicate HeldSince(states: seq<State>, b: nat, i: nat, t: Thread)
    requires i <= |states|
  {
    exists k :: b < k < i && Holds(states[k], t)
  }

  predicate Holds(s: State, t: Thread) {
    t in s.threads && s.threads[t].On? && s.threads[t].op.Holding?
  }

  /** The request has looked for a generation in vain. */
  ghost predicate TurnedAway(states: seq<State>, actions: seq<Action>, b: nat, i: nat, t: Thread)
    requires i <= |actions| && i <= |states|
  {
    exists k :: b < k < i && MeetsNothing(states[k], actions[k], t)
  }

  ghost predicate RequestAt(states: seq<State>, actions: seq<Action>, b: nat, i: nat, t: Thread)
    requires i <= |actions| < |states|
  {
    && t in states[i].threads
    && match states[i].threads[t]
       case LoadCurrent => true
       case CloseLock => false
       case On(g, op) => IsRequest(op) && ServedSince(states, b, i, g) && (op.CloseDrained? ==> HeldSince(states, b, i, t))
       case Done => HeldSince(states, b, i, t) || TurnedAway(states, actions, b, i, t)
  }

  /** Where the operations of a request lead. */
  lemma RequestLeads(r: RouteSet, op: Op)
    requires IsRequest(op)
    ensures var after := LocalAfter(r, op);
      && (after.Stay? ==> IsRequest(after.op) && (after.op.CloseDrained? ==> op.Holding?))
      && (after.Leave? ==> op.Holding? || op.CloseDrained?)
  {
  }

  lemma SinceGrows(states: seq<State>, actions: seq<Action>, b: nat, i: nat, t: Thread, g: nat)
    requires b < i < |actions| < |states|
    ensures ServedSince(states, b, i, g) || Serves(states[i], g) ==> ServedSince(states, b, i + 1, g)
    ensures HeldSince(states, b, i, t) || Holds(states[i], t) ==> HeldSince(states, b, i + 1, t)
    ensures TurnedAway(states, actions, b, i, t) || MeetsNothing(states[i], actions[i], t) ==> TurnedAway(states, actions, b, i + 1, t)
  {
  }

  /** The request's own step. */
  lemma RequestMoves(s: State, t: Thread)
    requires CanMove(s, t) && (s.threads[t].LoadCurrent? || (s.threads[t].On? && IsRequest(s.threads[t].op)))
    ensures t in Move(s, t).threads
    ensures match Move(s, t).threads[t]
      case LoadCurrent => true
      case CloseLock => false
      case On(g, op) => IsRequest(op) && (Serves(s, g) || (s.threads[t].On? && s.threads[t].g == g)) && (op.CloseDrained? ==> Holds(s, t))
      case Done => Holds(s, t) || MeetsNothing(s, ThreadMoves(t), t) || (s.threads[t].On? && s.threads[t].op.CloseDrained?)
  {
    if s.threads[t].On? {
      RequestLeads(s.sets[s.threads[t].g], s.threads[t].op);
    }
  }

  lemma OthersStay(s: State, a: Action, t: Thread)
    requires Enabled(s, a) && t in s.threads && a != ThreadMoves(t)
    ensures t in Next(s, a).threads && Next(s, a).threads[t] == s.threads[t]
  {
    if a.ThreadMoves? {
      MovesOne(s, a.t);
    }
  }

  /**
   * What requests reach. A request is only ever at a generation that was current, with a handler,
   * at some time since the request started; and it ends without having held one only if it met no
   * current generation, or one without a handler.
   */
  lemma {:induction false} RequestReachesCurrent(states: seq<State>, actions: seq<Action>, b: nat, i: nat, t: Thread)
    requires IsRun(states, actions) && b < i < |states| && actions[b] == StartRequest(t)
    ensures RequestAt(states, actions, b, i, t)
    decreases i
  {
    var j := i - 1;
    var s, a := states[j], actions[j];
    assert Enabled(s, a) && states[j + 1] == Next(s, a);
    if b < j {
      RequestReachesCurrent(states, actions, b, j, t);
      var pc := states[i].threads;
      if a == ThreadMoves(t) {
        RequestMoves(s, t);
      } else {
        OthersStay(s, a, t);
      }
      SinceGrows(states, actions, b, j, t, if pc[t].On? then pc[t].g else 0);
    }
  }

  /**
   * A request keeps trying: it leaves a generation that it has loaded only because that is retired,
   * and from its swap it comes to hold the generation unless the word has changed.
   */
  lemma RequestKeepsTrying(states: seq<State>, actions: seq<Action>, k: nat, t: Thread, g: nat)
    requires IsRun(states, actions) && k < |actions| && actions[k] == ThreadMoves(t) && t in states[k].threads
    requires states[k].threads[t].On? && states[k].threads[t].g == g
    ensures g < |states[k].sets| && t in states[k + 1].threads
    ensures states[k].threads[t].op.LoadRequest? ==>
              if IsRetired(states[k].sets[g].word) then states[k + 1].threads[t].LoadCurrent?
              else states[k + 1].threads[t] == On(g, CasRequest(states[k].sets[g].word))
    ensures states[k].threads[t].op.CasRequest? ==>
              states[k + 1].threads[t] == On(g, if states[k].sets[g].word == states[k].threads[t].op.seen then Holding else LoadRequest)
  {
    assert Enabled(states[k], actions[k]) && states[k + 1] == Next(states[k], actions[k]);
  }

  predicate IsLease(op: Op) {
    op.LoadLease? || op.CasLease? || op.Holding? || op.CloseDrained?
  }

  /** The generation was seen retired. */
  ghost predicate RetiredSince(states: seq<State>, b: nat, i: nat, g: nat)
    requires i <= |states|
  {
    exists k :: b < k < i && IsOver(states[k], g)
  }

  predicate IsOver(s: State, g: nat) {
    g < |s.sets| && IsRetired(s.sets[g].word)
  }

  ghost predicate LeaseAt(states: seq<State>, b: nat, i: nat, t: Thread, g: nat)
    requires i < |states|
  {
    && t in states[i].threads
    && match states[i].threads[t]
       case On(h, op) => h == g && IsLease(op) && (op.CloseDrained? ==> HeldSince(states, b, i, t))
       case Done => HeldSince(states, b, i, t) || RetiredSince(states, b, i, g)
       case _ => false
  }

  lemma LeaseMoves(s: State, t: Thread, g: nat)
    requires CanMove(s, t) && s.threads[t].On? && s.threads[t].g == g && IsLease(s.threads[t].op)
    ensures t in Move(s, t).threads
    ensures match Move(s, t).threads[t]
      case On(h, op) => h == g && IsLease(op) && (op.CloseDrained? ==> Holds(s, t))
      case Done => Holds(s, t) || IsOver(s, g) || s.threads[t].op.CloseDrained?
      case _ => false
  {
  }

  lemma LeaseSinceGrows(states: seq<State>, b: nat, i: nat, t: Thread, g: nat)
    requires b < i < |states|
    ensures HeldSince(states, b, i, t) || Holds(states[i], t) ==> HeldSince(states, b, i + 1, t)
    ensures RetiredSince(states, b, i, g) || IsOver(states[i], g) ==> RetiredSince(states, b, i + 1, g)
  {
  }

  /** A batch lease is for the generation it was asked of, and ends without it only if that was retired. */
  lemma {:induction false} LeaseIsGranted(states: seq<State>, actions: seq<Action>, b: nat, i: nat, t: Thread, g: nat)
    requires IsRun(states, actions) && b < i < |states| && actions[b] == StartLease(t, g)
    ensures LeaseAt(states, b, i, t, g)
    decreases i
  {
    var j := i - 1;
    var s, a := states[j], actions[j];
    assert Enabled(s, a) && states[j + 1] == Next(s, a);
    if b < j {
      LeaseIsGranted(states, actions, b, j, t, g);
      if a == ThreadMoves(t) {
        LeaseMoves(s, t, g);
      } else {
        OthersStay(s, a, t);
      }
      LeaseSinceGrows(states, b, j, t, g);
    }
  }

  /** While a generation is not retired, its hijacked set is exactly the registered connections. */
  lemma HijackedAreRegistered(states: seq<State>, actions: seq<Action>, i: nat, g: nat, c: Connection)
    requires IsRun(states, actions) && i < |states| && g < |states[i].sets|
    ensures var s := states[i];
      && (c in s.sets[g].hijacked ==> c in s.hijacks && s.hijacks[c] == Hijack(g, Registered))
      && (!IsRetired(s.sets[g].word) && c in s.hijacks && s.hijacks[c] == Hijack(g, Registered) ==> c in s.sets[g].hijacked)
  {
    var s := states[i];
    RunKeepsInv(states, actions, i);
    var v := ViewOf(s, g);
    assert ViewInv(v, s.closedConnections);
    assert c in s.hijacks && s.hijacks[c].g == g ==> c in v.stages && v.stages[c] == s.hijacks[c].stage;
  }

  // ----- calls end -----

  /** How many operations a goroutine has ahead of it at most, if nobody interferes. */
  function Ahead(pc: Pc): nat {
    match pc
    case LoadCurrent => 5
    case CloseLock => 9
    case Done => 0
    case On(_, op) =>
      match op
      case LoadRequest => 4
      case CasRequest(_) => 3
      case LoadLease => 4
      case CasLease(_) => 3
      case Holding => 2
      case CloseDrained => 1
      case ReplaceLock => 9
      case RetireLoad => 8
      case RetireCas(_) => 7
      case RetireHijack(_) => 6
      case RetireConnections(_, _) => 5
      case RetireDrain => 4
      case Unlock => 3
      case WaitDrained => 2
  }

  /** Somebody interfered: the word changed between load and swap, or the generation was retired before the load. */
  predicate Interfered(s: State, t: Thread) {
    && t in s.threads && s.threads[t].On? && s.threads[t].g < |s.sets|
    && var r, op := s.sets[s.threads[t].g], s.threads[t].op;
       || ((op.CasRequest? || op.CasLease? || op.RetireCas?) && r.word != op.seen)
       || (op.LoadRequest? && IsRetired(r.word))
  }

  lemma LocalIsNearer(r: RouteSet, op: Op, g: nat)
    requires IsLocal(op)
    ensures || Ahead(ToPc(g, LocalAfter(r, op))) < Ahead(On(g, op))
            || ((op.CasRequest? || op.CasLease? || op.RetireCas?) && r.word != op.seen)
            || (op.LoadRequest? && IsRetired(r.word))
  {
  }

  lemma MoveIsNearer(s: State, t: Thread)
    requires CanMove(s, t)
    ensures t in Move(s, t).threads
    ensures Interfered(s, t) || Ahead(Move(s, t).threads[t]) < Ahead(s.threads[t])
  {
    if s.threads[t].On? && IsLocal(s.threads[t].op) {
      LocalIsNearer(s.sets[s.threads[t].g], s.threads[t].op, s.threads[t].g);
    }
  }

  /** Every operation of a goroutine takes it nearer to the end of its call, unless somebody interfered. */
  lemma EveryMoveIsNearer(states: seq<State>, actions: seq<Action>, k: nat, t: Thread)
    requires IsRun(states, actions) && k < |actions| && actions[k] == ThreadMoves(t)
    ensures t in states[k].threads && t in states[k + 1].threads
    ensures Interfered(states[k], t) || Ahead(states[k + 1].threads[t]) < Ahead(states[k].threads[t])
  {
    assert Enabled(states[k], actions[k]) && states[k + 1] == Next(states[k], actions[k]);
    MoveIsNearer(states[k], t);
  }

  // ----- progress -----

  /** Some goroutine, or some connection in the middle of its registration, has a step to take. */
  ghost predicate CanProceed(s: State) {
    || (exists t :: t in s.threads && CanMove(s, t))
    || (exists c :: c in s.hijacks && !s.hijacks[c].stage.Registered? && CanMoveHijack(s, c))
  }

  lemma HijackMutexIsReleased(s: State, g: nat)
    requires Inv(s) && g < |s.sets| && s.sets[g].hijackMu.Some?
    ensures CanProceed(s)
  {
    var c := s.sets[g].hijackMu.value;
    assert ViewInv(ViewOf(s, g), s.closedConnections);
    assert c in ViewOf(s, g).stages;
    assert CanMoveHijack(s, c);
  }

  lemma MutexIsReleased(s: State)
    requires Inv(s) && s.mu.Some?
    ensures CanProceed(s)
  {
    var Some(t) := s.mu;
    var On(g, op) := s.threads[t];
    if op.RetireHijack? && s.sets[g].hijackMu.Some? {
      HijackMutexIsReleased(s, g);
    } else {
      assert CanMove(s, t);
    }
  }

  /** Whoever waits for a generation to drain waits for a goroutine that can move. */
  lemma DrainIsReached(s: State, t: Thread)
    requires Inv(s) && t in s.threads && s.threads[t].On? && s.threads[t].op.WaitDrained?
    ensures CanProceed(s)
  {
    var g := s.threads[t].g;
    var v := ViewOf(s, g);
    assert ViewInv(v, s.closedConnections) && v.ops[t].WaitDrained?;
    if s.sets[g].drained {
      assert CanMove(s, t);
    } else if Count(v.r.word) == 0 {
      var u :| u in v.ops && WillDrain(v.ops[u]);
      if v.ops[u].CloseDrained? {
        assert CanMove(s, u);
      } else {
        MutexIsReleased(s);
      }
    } else {
      var u :| u in Holders(v.ops);
      assert CanMove(s, u);
    }
  }

  /** No deadlock: as long as a call has not returned, something can move. */
  lemma Progress(states: seq<State>, actions: seq<Action>, i: nat, t: Thread)
    requires IsRun(states, actions) && i < |states| && t in states[i].threads && !states[i].threads[t].Done?
    ensures CanProceed(states[i])
  {
    var s := states[i];
    RunKeepsInv(states, actions, i);
    if s.mu.Some? {
      MutexIsReleased(s);
    } else if s.threads[t].On? && s.threads[t].op.WaitDrained? {
      DrainIsReached(s, t);
    } else {
      assert CanMove(s, t);
    }
  }

  /**
   * Nothing left behind. When nothing can move, every call has returned, every generation but the
   * published one was drained and stopped exactly once, and every connection that ever tried to
   * register with such a generation was closed or has unregistered itself.
   */
  lemma QuiescentIsClean(states: seq<State>, actions: seq<Action>, i: nat, g: nat)
    requires IsRun(states, actions) && i < |states| && !CanProceed(states[i])
    requires g < |states[i].sets| && states[i].current != Some(g)
    ensures var s := states[i];
      && s.mu.None? && (forall t :: t in s.threads ==> s.threads[t].Done?)
      && s.sets[g].drained && s.sets[g].stops == 1 && s.sets[g].hijacked == {}
      && (forall c :: c in s.hijacks && s.hijacks[c].g == g ==> c in s.closedConnections || s.hijacks[c].stage.Unregistered?)
  {
    var s := states[i];
    RunKeepsInv(states, actions, i);
    if s.mu.Some? {
      MutexIsReleased(s);
    }
    forall t | t in s.threads
      ensures s.threads[t].Done?
    {
      if !s.threads[t].Done? {
        Progress(states, actions, i, t);
      }
    }
    if s.sets[g].hijackMu.Some? {
      HijackMutexIsReleased(s, g);
    }
    var v := ViewOf(s, g);
    assert v.ops == map[];
    assert ViewInv(v, s.closedConnections);
    forall c | c in s.hijacks && s.hijacks[c].g == g
      ensures c in s.closedConnections || s.hijacks[c].stage.Unregistered?
    {
      assert v.stages[c] == s.hijacks[c].stage;
    }
  }

  /** The gateway closes a hijacked connection only after the connection's generation was retired. */
  lemma OnlyRetiredAreClosed(states: seq<State>, actions: seq<Action>, i: nat, c: Connection)
    requires IsRun(states, actions) && i < |states| && c in states[i].closedConnections
    ensures var s := states[i];
      c in s.hijacks && s.hijacks[c].g < |s.sets| && IsRetired(s.sets[s.hijacks[c].g].word)
  {
    RunKeepsInv(states, actions, i);
    var s := states[i];
    var v := ViewOf(s, s.hijacks[c].g);
    assert ViewInv(v, s.closedConnections) && c in v.stages;
  }
}
