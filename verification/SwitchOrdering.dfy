/** Ordering of switch events (src/core/SwitchOrdering.cc).

    Every switch-up or switch-down event gets a handler thread of its own, which may start at any
    later time; threads of one switch exclude each other by a per-switch mutex.  A run is any interleaving of the
    atomic steps below; a step that is not enabled changes nothing. */
module SwitchOrdering {

  datatype Kind = Up | Down

  // Waiting for the mutex; holding it and about to decide; running the subscribed
  // applications; done, with `connected` brought up to date; or gone.
  datatype Phase = Waiting | Locked | Handling | Updated | Gone

  datatype Handler = Handler(dpid: nat, kind: Kind, phase: Phase)

  datatype Port = Port(dpid: nat, number: nat)

  // A link-up notification whose connectivity test has been made but not yet acted upon.
  datatype Pending = NoLink | Tested(port: Port, connected: bool)

  datatype LinkEvent = LinkUp(port: Port) | LinkDown(port: Port)

  datatype Sys = Sys(
    alive: set<nat>,               // the switches whose connection is up
    handlers: seq<Handler>,
    owner: map<nat, nat>,          // the thread that holds the mutex of a switch
    connected: seq<nat>,
    log: seq<(nat, Kind)>,         // switch events whose handling began
    cached: map<nat, seq<Port>>,   // link-ups of switches not yet connected
    pending: Pending,
    told: seq<LinkEvent>)          // link events the applications were told of

  // A connection that comes or goes gets its handler; Spawn is a notification beyond those.
  datatype Action =
    | Connect(dpid: nat)
    | Disconnect(dpid: nat)
    | Spawn(kind: Kind, dpid: nat)
    | Lock(t: nat)
    | Decide(t: nat)
    | Finish(t: nat)
    | Unlock(t: nat)
    | TestLink(port: Port)
    | ActLink
    | DropLink(port: Port)

  const INIT := Sys({}, [], map[], [], [], map[], NoLink, [])

  function Remove<T(==)>(s: seq<T>, x: T): seq<T> {
    if s == [] then [] else (if s[0] == x then [] else [s[0]]) + Remove(s[1..], x)
  }

  function Ups(ports: seq<Port>): seq<LinkEvent> {
    seq(|ports|, i requires 0 <= i < |ports| => LinkUp(ports[i]))
  }

  function Cached(s: Sys, d: nat): seq<Port> {
    if d in s.cached then s.cached[d] else []
  }

  /** Whether a handler may go on, once it holds the mutex. */
  predicate CanHandle(kind: Kind, up: bool, alive: bool) {
    match kind
    case Up => alive && !up
    case Down => up && !alive
  }

  function Advance(s: Sys, t: nat, phase: Phase): Sys
    requires t < |s.handlers|
  {
    s.(handlers := s.handlers[t := s.handlers[t].(phase := phase)])
  }

  predicate At(s: Sys, t: nat, phase: Phase) {
    t < |s.handlers| && s.handlers[t].phase == phase
  }

  function Step(s: Sys, a: Action): Sys {
    match a
    case Connect(d) => if d in s.alive then s else DoSpawn(s.(alive := s.alive + {d}), Up, d)
    case Disconnect(d) => if d in s.alive then DoSpawn(s.(alive := s.alive - {d}), Down, d) else s
    case Spawn(kind, d) => DoSpawn(s, kind, d)
    case Lock(t) => if At(s, t, Waiting) then DoLock(s, t) else s
    case Decide(t) => if At(s, t, Locked) then DoDecide(s, t) else s
    case Finish(t) => if At(s, t, Handling) then DoFinish(s, t) else s
    case Unlock(t) => if At(s, t, Updated) then DoUnlock(s, t) else s
    case TestLink(p) => if s.pending == NoLink then s.(pending := Tested(p, p.dpid in s.connected)) else s
    case ActLink => DoActLink(s)
    case DropLink(p) => if s.pending == NoLink then DoDropLink(s, p) else s
  }

  function DoSpawn(s: Sys, kind: Kind, d: nat): Sys {
    s.(handlers := s.handlers + [Handler(d, kind, Waiting)])
  }

  function DoLock(s: Sys, t: nat): Sys
    requires At(s, t, Waiting)
  {
    var d := s.handlers[t].dpid;
    if d in s.owner then s else Advance(s, t, Locked).(owner := s.owner[d := t])
  }

  function DoUnlock(s: Sys, t: nat): Sys
    requires t < |s.handlers|
  {
    Advance(s, t, Gone).(owner := s.owner - {s.handlers[t].dpid})
  }

  function DoDecide(s: Sys, t: nat): Sys
    requires At(s, t, Locked)
  {
    var Handler(d, kind, _) := s.handlers[t];
    if CanHandle(kind, d in s.connected, d in s.alive) then Advance(s, t, Handling).(log := s.log + [(d, kind)])
    else DoUnlock(s, t)
  }

  /** The first `finished` callback: record the switch and hand over its cached links, or
      forget the switch. The mutex is released only by the second callback. */
  function DoFinish(s: Sys, t: nat): Sys
    requires At(s, t, Handling)
  {
    var Handler(d, kind, _) := s.handlers[t];
    match kind
    case Up =>
      Advance(s, t, Updated).(connected := s.connected + [d],
                              told := s.told + Ups(Cached(s, d)),
                              cached := if d in s.cached then s.cached[d := []] else s.cached)
    case Down => Advance(s, t, Updated).(connected := Remove(s.connected, d))
  }

  function DoActLink(s: Sys): Sys {
    match s.pending
    case NoLink => s
    case Tested(p, true) => s.(pending := NoLink, told := s.told + [LinkUp(p)])
    case Tested(p, false) => s.(pending := NoLink, cached := s.cached[p.dpid := Cached(s, p.dpid) + [p]])
  }

  function DoDropLink(s: Sys, p: Port): Sys {
    if Cached(s, p.dpid) != [] then s.(cached := s.cached[p.dpid := Remove(s.cached[p.dpid], p)])
    else s.(told := s.told + [LinkDown(p)])
  }

  function Run(acts: seq<Action>): Sys {
    if acts == [] then INIT else Step(Run(acts[..|acts| - 1]), acts[|acts| - 1])
  }

  // ---------------------------------------------------------------------------
  // Mutual exclusion and alternation
  // ---------------------------------------------------------------------------

  ghost predicate Critical(phase: Phase) {
    phase == Locked || phase == Handling || phase == Updated
  }

  ghost predicate Mutex(s: Sys) {
    && (forall t :: 0 <= t < |s.handlers| && Critical(s.handlers[t].phase) ==>
          s.handlers[t].dpid in s.owner && s.owner[s.handlers[t].dpid] == t)
    && (forall d :: d in s.owner ==>
          0 <= s.owner[d] < |s.handlers| && s.handlers[s.owner[d]].dpid == d && Critical(s.handlers[s.owner[d]].phase))
  }

  ghost predicate NoRepeats(s: seq<nat>) {
    forall i, j :: 0 <= i < j < |s| ==> s[i] != s[j]
  }

  datatype Live = Bad | Good(up: set<nat>)

  /** The switches that are up after a log of handled events, or Bad once a switch is
      handled up while up, or down while down. */
  ghost function Replay(log: seq<(nat, Kind)>): Live {
    if log == [] then Good({})
    else
      match Replay(log[..|log| - 1])
      case Bad => Bad
      case Good(up) =>
        var (d, kind) := log[|log| - 1];
        match kind
        case Up => if d in up then Bad else Good(up + {d})
        case Down => if d !in up then Bad else Good(up - {d})
  }

  ghost predicate Busy(s: Sys, d: nat) {
    d in s.owner && At(s, s.owner[d], Handling)
  }

  // While a handler runs, `connected` still shows the state before its event.
  ghost predicate InStep(s: Sys) {
    && Replay(s.log).Good?
    && forall d: nat :: (d in Replay(s.log).up) == ((d in s.connected) != Busy(s, d))
  }

  ghost predicate BusyKind(s: Sys) {
    forall d: nat :: Busy(s, d) ==> ((s.handlers[s.owner[d]].kind == Down) == (d in s.connected))
  }

  ghost predicate Inv(s: Sys) {
    Mutex(s) && NoRepeats(s.connected) && InStep(s) && BusyKind(s)
  }

  lemma {:induction false} RemoveMembers<T>(s: seq<T>, x: T)
    ensures forall y :: y in Remove(s, x) <==> y in s && y != x
  {
    if s != [] {
      RemoveMembers(s[1..], x);
      assert s == [s[0]] + s[1..];
    }
  }

  lemma {:induction false} RemoveNoRepeats(s: seq<nat>, x: nat)
    requires NoRepeats(s)
    ensures NoRepeats(Remove(s, x))
  {
    if s != [] {
      RemoveNoRepeats(s[1..], x);
      RemoveMembers(s[1..], x);
      var r := Remove(s[1..], x);
      forall j | 0 <= j < |r| ensures r[j] != s[0] {
        assert r[j] in r && s[0] !in s[1..];
      }
    }
  }

  lemma {:induction false} ReplayLast(log: seq<(nat, Kind)>, d: nat, kind: Kind)
    ensures Replay(log + [(d, kind)]) ==
            match Replay(log)
            case Bad => Bad
            case Good(up) =>
              match kind
              case Up => if d in up then Bad else Good(up + {d})
              case Down => if d !in up then Bad else Good(up - {d})
  {
    assert (log + [(d, kind)])[..|log|] == log;
  }

  lemma {:induction false} DecideKeeps(s: Sys, t: nat)
    requires Inv(s) && At(s, t, Locked)
    ensures Inv(DoDecide(s, t))
  {
    var s' := DoDecide(s, t);
    var Handler(d, kind, _) := s.handlers[t];
    assert !Busy(s, d);
    if CanHandle(kind, d in s.connected, d in s.alive) {
      ReplayLast(s.log, d, kind);
      forall c: nat ensures Busy(s', c) <==> Busy(s, c) || c == d {}
    } else {
      forall c: nat ensures Busy(s', c) <==> Busy(s, c) {}
    }
  }

  lemma {:induction false} FinishMutex(s: Sys, t: nat)
    requires Mutex(s) && At(s, t, Handling)
    ensures Mutex(DoFinish(s, t))
    ensures forall c: nat :: Busy(DoFinish(s, t), c) <==> Busy(s, c) && c != s.handlers[t].dpid
    ensures Busy(s, s.handlers[t].dpid) && s.owner[s.handlers[t].dpid] == t
    ensures forall c: nat :: Busy(s, c) && c != s.handlers[t].dpid ==>
              DoFinish(s, t).owner == s.owner && DoFinish(s, t).handlers[s.owner[c]] == s.handlers[s.owner[c]]
  {
    hide Remove, Ups, Cached;
  }

  // The record of the switch flips, and nothing else in it changes.
  lemma {:induction false} FinishRecord(s: Sys, t: nat)
    requires NoRepeats(s.connected) && At(s, t, Handling)
    requires (s.handlers[t].kind == Down) == (s.handlers[t].dpid in s.connected)
    ensures NoRepeats(DoFinish(s, t).connected)
    ensures forall c: nat :: c in DoFinish(s, t).connected <==> (c in s.connected) != (c == s.handlers[t].dpid)
  {
    hide Ups, Cached;
    RemoveMembers(s.connected, s.handlers[t].dpid);
    RemoveNoRepeats(s.connected, s.handlers[t].dpid);
  }

  lemma {:induction false} FinishKeeps(s: Sys, t: nat)
    requires Inv(s) && At(s, t, Handling)
    ensures Inv(DoFinish(s, t))
  {
    FinishMutex(s, t);
    FinishRecord(s, t);
    hide Mutex, NoRepeats, Remove, Ups, Cached, Busy, Replay;
  }

  lemma {:induction false} LockKeeps(s: Sys, t: nat)
    requires Inv(s) && At(s, t, Waiting)
    ensures Inv(DoLock(s, t))
  {
    var s' := DoLock(s, t);
    forall c: nat ensures Busy(s', c) <==> Busy(s, c) {}
  }

  lemma {:induction false} UnlockKeeps(s: Sys, t: nat)
    requires Inv(s) && At(s, t, Updated)
    ensures Inv(DoUnlock(s, t))
  {
    var s' := DoUnlock(s, t);
    forall c: nat ensures Busy(s', c) <==> Busy(s, c) {}
  }

  // Steps that only concern links, or add a waiting thread.
  lemma {:induction false} OtherKeeps(s: Sys, s': Sys)
    requires Inv(s) && s'.owner == s.owner && s'.connected == s.connected && s'.log == s.log
    requires s.handlers <= s'.handlers
    requires forall t :: |s.handlers| <= t < |s'.handlers| ==> s'.handlers[t].phase == Waiting
    ensures Inv(s')
  {
    forall c: nat ensures Busy(s', c) <==> Busy(s, c) {}
  }

  lemma {:induction false} StepKeeps(s: Sys, a: Action)
    requires Inv(s)
    ensures Inv(Step(s, a))
  {
    hide Inv, DoLock, DoDecide, DoFinish, DoUnlock, Remove;
    match a
    case Lock(t) => if At(s, t, Waiting) { LockKeeps(s, t); }
    case Decide(t) => if At(s, t, Locked) { DecideKeeps(s, t); }
    case Finish(t) => if At(s, t, Handling) { FinishKeeps(s, t); }
    case Unlock(t) => if At(s, t, Updated) { UnlockKeeps(s, t); }
    case _ => OtherKeeps(s, Step(s, a));
  }

  lemma {:induction false} RunKeeps(acts: seq<Action>)
    ensures Inv(Run(acts))
  {
    if acts != [] {
      RunKeeps(acts[..|acts| - 1]);
      StepKeeps(Run(acts[..|acts| - 1]), acts[|acts| - 1]);
    }
  }

  /** In every interleaving, two threads of one switch are never both past the mutex. */
  lemma {:induction false} MutualExclusion(acts: seq<Action>, t: nat, u: nat)
    ensures var s := Run(acts);
            t < u < |s.handlers| && s.handlers[t].dpid == s.handlers[u].dpid ==>
            !(Critical(s.handlers[t].phase) && Critical(s.handlers[u].phase))
  {
    RunKeeps(acts);
  }

  /** In every interleaving, the handled ups and downs of each switch alternate, starting
      with an up; no switch is recorded twice; and with nobody handling a switch, it is
      recorded iff its last handled event was an up. */
  lemma {:induction false} HandledAlternate(acts: seq<Action>, d: nat)
    ensures var s := Run(acts);
            && Replay(s.log).Good? && NoRepeats(s.connected)
            && ((forall t :: 0 <= t < |s.handlers| && s.handlers[t].dpid == d ==> s.handlers[t].phase != Handling) ==>
                (d in s.connected <==> d in Replay(s.log).up))
  {
    RunKeeps(acts);
  }

  // ---------------------------------------------------------------------------
  // The record ends up right
  // ---------------------------------------------------------------------------

  /** A handler of this kind for d has not decided yet. */
  ghost predicate Undecided(s: Sys, d: nat, kind: Kind) {
    exists t :: && 0 <= t < |s.handlers| && s.handlers[t].dpid == d && s.handlers[t].kind == kind
                && (s.handlers[t].phase == Waiting || s.handlers[t].phase == Locked)
  }

  ghost predicate Settled(s: Sys, d: nat) {
    Replay(s.log).Good? && (d in Replay(s.log).up <==> d in s.alive)
  }

  /** Where the handled events and the connection differ, a handler that will tell is on its way. */
  ghost predicate Owed(s: Sys) {
    forall d: nat :: Settled(s, d) || Undecided(s, d, if d in s.alive then Up else Down)
  }

  // No undecided handler of a kind is lost by a step that decides none of that kind.
  lemma {:induction false} UndecidedStays(s: Sys, s': Sys, d: nat, kind: Kind)
    requires Undecided(s, d, kind) && |s.handlers| <= |s'.handlers|
    requires forall t :: && 0 <= t < |s.handlers| && s.handlers[t].dpid == d && s.handlers[t].kind == kind
                         && (s.handlers[t].phase == Waiting || s.handlers[t].phase == Locked) ==>
                           && s'.handlers[t].dpid == d && s'.handlers[t].kind == kind
                           && (s'.handlers[t].phase == Waiting || s'.handlers[t].phase == Locked)
    ensures Undecided(s', d, kind)
  {
    var t :| && 0 <= t < |s.handlers| && s.handlers[t].dpid == d && s.handlers[t].kind == kind
             && (s.handlers[t].phase == Waiting || s.handlers[t].phase == Locked);
    assert s'.handlers[t].dpid == d;
  }

  lemma {:induction false} SpawnOwed(s: Sys, s': Sys, kind: Kind, d: nat)
    requires Owed(s) && s'.log == s.log && s'.handlers == s.handlers + [Handler(d, kind, Waiting)]
    requires forall c: nat :: c != d ==> (c in s'.alive <==> c in s.alive)
    requires (d in s'.alive <==> d in s.alive) || (kind == Up <==> d in s'.alive)
    ensures Owed(s')
  {
    hide Replay;
    forall c: nat ensures Settled(s', c) || Undecided(s', c, if c in s'.alive then Up else Down) {
      if c == d && !(d in s'.alive <==> d in s.alive) {
        assert s'.handlers[|s.handlers|] == Handler(d, kind, Waiting);
      } else if !Settled(s, c) {
        UndecidedStays(s, s', c, if c in s.alive then Up else Down);
      }
    }
  }

  // A step that neither logs an event nor decides.
  lemma {:induction false} QuietOwed(s: Sys, s': Sys)
    requires Owed(s) && s'.log == s.log && s'.alive == s.alive && |s'.handlers| == |s.handlers|
    requires forall t :: 0 <= t < |s.handlers| ==>
               && s'.handlers[t].dpid == s.handlers[t].dpid && s'.handlers[t].kind == s.handlers[t].kind
               && (s.handlers[t].phase == Waiting || s.handlers[t].phase == Locked ==>
                     s'.handlers[t].phase == Waiting || s'.handlers[t].phase == Locked)
    ensures Owed(s')
  {
    hide Replay;
    forall c: nat ensures Settled(s', c) || Undecided(s', c, if c in s'.alive then Up else Down) {
      if !Settled(s, c) {
        UndecidedStays(s, s', c, if c in s.alive then Up else Down);
      }
    }
  }

  lemma {:induction false} LockedRecord(s: Sys, t: nat)
    requires Inv(s) && At(s, t, Locked)
    ensures Replay(s.log).Good? && (s.handlers[t].dpid in Replay(s.log).up <==> s.handlers[t].dpid in s.connected)
  {
    assert !Busy(s, s.handlers[t].dpid);
  }

  lemma {:induction false} DecideFrame(s: Sys, t: nat)
    requires At(s, t, Locked)
    ensures var s' := DoDecide(s, t);
            && s'.alive == s.alive && |s'.handlers| == |s.handlers|
            && (forall u :: 0 <= u < |s.handlers| && u != t ==> s'.handlers[u] == s.handlers[u])
            && var h := s.handlers[t];
               s'.log == if CanHandle(h.kind, h.dpid in s.connected, h.dpid in s.alive) then s.log + [(h.dpid, h.kind)] else s.log
  {
  }

  // Deciding to go on settles the switch.
  lemma {:induction false} DecideSettles(s: Sys, t: nat, c: nat)
    requires Inv(s) && At(s, t, Locked)
    ensures var s', h := DoDecide(s, t), s.handlers[t];
            if c == h.dpid && CanHandle(h.kind, c in s.connected, c in s.alive) then Settled(s', c)
            else Settled(s', c) <==> Settled(s, c)
  {
    LockedRecord(s, t);
    DecideFrame(s, t);
    ReplayLast(s.log, s.handlers[t].dpid, s.handlers[t].kind);
    hide Inv, DoDecide, Replay;
  }

  // Deciding not to go on leaves a handler of the other kind.
  lemma {:induction false} DecideOwed(s: Sys, t: nat)
    requires Inv(s) && Owed(s) && At(s, t, Locked)
    ensures Owed(DoDecide(s, t))
  {
    hide Inv, DoDecide, Settled, Replay;
    var s', d, kind := DoDecide(s, t), s.handlers[t].dpid, s.handlers[t].kind;
    DecideFrame(s, t);
    LockedRecord(s, t);
    forall c: nat ensures Settled(s', c) || Undecided(s', c, if c in s'.alive then Up else Down) {
      DecideSettles(s, t, c);
      if !Settled(s', c) {
        assert c == d ==> kind != if c in s.alive then Up else Down by { MismatchHandled(s, t); }
        UndecidedStays(s, s', c, if c in s.alive then Up else Down);
      }
    }
  }

  lemma {:induction false} MismatchHandled(s: Sys, t: nat)
    requires Inv(s) && At(s, t, Locked)
    ensures var h := s.handlers[t];
            !Settled(s, h.dpid) && h.kind == (if h.dpid in s.alive then Up else Down) ==>
            CanHandle(h.kind, h.dpid in s.connected, h.dpid in s.alive)
  {
    LockedRecord(s, t);
    hide Inv, Replay;
  }

  lemma {:induction false} StepOwed(s: Sys, a: Action)
    requires Inv(s) && Owed(s)
    ensures Owed(Step(s, a))
  {
    hide Owed, Inv, DoDecide, Remove, Ups;
    match a
    case Connect(d) => if d !in s.alive { SpawnOwed(s, Step(s, a), Up, d); }
    case Disconnect(d) => if d in s.alive { SpawnOwed(s, Step(s, a), Down, d); }
    case Spawn(kind, d) => SpawnOwed(s, Step(s, a), kind, d);
    case Decide(t) => if At(s, t, Locked) { DecideOwed(s, t); }
    case _ => QuietOwed(s, Step(s, a));
  }

  lemma {:induction false} RunOwed(acts: seq<Action>)
    ensures Owed(Run(acts))
  {
    hide Inv, Step;
    if acts == [] {
      NothingOwed();
    } else {
      RunOwed(acts[..|acts| - 1]);
      RunKeeps(acts[..|acts| - 1]);
      StepOwed(Run(acts[..|acts| - 1]), acts[|acts| - 1]);
    }
  }

  lemma {:induction false} NothingOwed()
    ensures Owed(INIT)
  {
    assert forall d: nat :: Settled(INIT, d);
  }

  /** In every interleaving, once all handlers of a switch are gone, it is recorded iff its
      connection is alive. */
  lemma {:induction false} RecordIsRight(acts: seq<Action>, d: nat)
    ensures var s := Run(acts);
            (forall t :: 0 <= t < |s.handlers| && s.handlers[t].dpid == d ==> s.handlers[t].phase == Gone) ==>
            (d in s.connected <==> d in s.alive)
  {
    hide Run, Replay;
    RunOwed(acts);
    RunKeeps(acts);
    var s := Run(acts);
    if forall t :: 0 <= t < |s.handlers| && s.handlers[t].dpid == d ==> s.handlers[t].phase == Gone {
      assert Settled(s, d);
      assert !Busy(s, d);
    }
  }

  // ---------------------------------------------------------------------------
  // Cached links
  // ---------------------------------------------------------------------------

  ghost predicate CacheClean(s: Sys) {
    forall d: nat :: d in s.connected ==> Cached(s, d) == []
  }

  /** No other step between the connectivity test of a link-up and its consequence. */
  ghost predicate Uninterrupted(acts: seq<Action>) {
    forall i :: 0 <= i < |acts| - 1 && acts[i].TestLink? ==> acts[i + 1] == ActLink
  }

  // What is pending was tested in the very state before.
  ghost predicate FreshTest(s: Sys) {
    s.pending.Tested? ==> (s.pending.connected <==> s.pending.port.dpid in s.connected)
  }

  /** A step spoils the cache exactly when it acts on a test that has gone stale. */
  lemma {:induction false} CacheSpoiledBy(s: Sys, a: Action)
    requires CacheClean(s)
    ensures CacheClean(Step(s, a)) <==>
            !(a == ActLink && s.pending.Tested? && !s.pending.connected && s.pending.port.dpid in s.connected)
  {
    var s' := Step(s, a);
    match a
    case Finish(t) =>
      if At(s, t, Handling) {
        RemoveMembers(s.connected, s.handlers[t].dpid);
      }
    case ActLink =>
      if s.pending.Tested? && !s.pending.connected {
        var d := s.pending.port.dpid;
        assert Cached(s', d) != [];
        assert forall c: nat :: c != d ==> Cached(s', c) == Cached(s, c);
      }
    case _ =>
  }

  lemma {:induction false} TestStaysFresh(s: Sys, a: Action)
    requires FreshTest(s) && (s.pending.Tested? ==> a == ActLink)
    ensures FreshTest(Step(s, a))
    ensures Step(s, a).pending.Tested? ==> a.TestLink?
  {
  }

  /** If link-ups are handled without interruption, no link-up of a connected switch is left
      in the cache: each was told to the applications. */
  lemma {:induction false} CacheFlushed(acts: seq<Action>)
    requires Uninterrupted(acts)
    ensures CacheClean(Run(acts)) && FreshTest(Run(acts))
    ensures Run(acts).pending.Tested? ==> acts != [] && acts[|acts| - 1].TestLink?
  {
    if acts != [] {
      var n := |acts| - 1;
      assert forall i :: 0 <= i < n ==> acts[..n][i] == acts[i];
      assert Uninterrupted(acts[..n]) by {
        forall i | 0 <= i < n - 1 && acts[..n][i].TestLink? ensures acts[..n][i + 1] == ActLink {
          assert acts[i + 1] == ActLink;
        }
      }
      CacheFlushed(acts[..n]);
      if Run(acts[..n]).pending.Tested? {
        assert acts[n - 1].TestLink? && acts[n - 1 + 1] == ActLink;
      }
      CacheSpoiledBy(Run(acts[..n]), acts[n]);
      TestStaysFresh(Run(acts[..n]), acts[n]);
    }
  }

  // ---------------------------------------------------------------------------
  // No link event is lost or made up
  // ---------------------------------------------------------------------------

  /** A switch-up that is finished tells the ports cached for that switch, in order, and empties
      the cache of that switch only; a switch-down tells nothing. */
  lemma {:induction false} FinishTells(s: Sys, t: nat)
    requires At(s, t, Handling)
    ensures var s', d := Step(s, Finish(t)), s.handlers[t].dpid;
            if s.handlers[t].kind == Up then
              && |s'.told| == |s.told| + |Cached(s, d)| && s'.told[..|s.told|] == s.told
              && (forall i :: 0 <= i < |Cached(s, d)| ==> s'.told[|s.told| + i] == LinkUp(Cached(s, d)[i]))
              && Cached(s', d) == [] && forall c :: c != d ==> Cached(s', c) == Cached(s, c)
            else s'.told == s.told && s'.cached == s.cached
  {
  }

  function Count<T(==)>(s: seq<T>, x: T): nat {
    if s == [] then 0 else Count(s[..|s| - 1], x) + if s[|s| - 1] == x then 1 else 0
  }

  lemma {:induction false} CountConcat<T>(s: seq<T>, t: seq<T>, x: T)
    ensures Count(s + t, x) == Count(s, x) + Count(t, x)
  {
    if t == [] {
      assert s + t == s;
    } else {
      CountConcat(s, t[..|t| - 1], x);
      assert (s + t)[..|s| + |t| - 1] == s + t[..|t| - 1];
    }
  }

  lemma {:induction false} CountOne<T>(x: T, y: T)
    ensures Count([x], y) == if x == y then 1 else 0
  {
    assert [x][..0] == [];
  }

  lemma {:induction false} CountNone<T>(s: seq<T>, x: T)
    requires x !in s
    ensures Count(s, x) == 0
  {
    if s != [] {
      assert s[|s| - 1] in s;
      CountNone(s[..|s| - 1], x);
    }
  }

  lemma {:induction false} CountUps(ports: seq<Port>, p: Port)
    ensures Count(Ups(ports), LinkUp(p)) == Count(ports, p) && Count(Ups(ports), LinkDown(p)) == 0
  {
    if ports != [] {
      CountUps(ports[..|ports| - 1], p);
      assert Ups(ports)[..|ports| - 1] == Ups(ports[..|ports| - 1]);
    }
  }

  lemma {:induction false} CountRemove<T>(s: seq<T>, x: T, y: T)
    ensures Count(Remove(s, x), y) == if x == y then 0 else Count(s, y)
  {
    if s == [] {
    } else {
      CountRemove(s[1..], x, y);
      assert s == [s[0]] + s[1..];
      CountConcat([s[0]], s[1..], y);
      CountOne(s[0], y);
      CountConcat(if s[0] == x then [] else [s[0]], Remove(s[1..], x), y);
    }
  }

  /** Ports are cached under their own switch. */
  ghost predicate CachedAtHome(s: Sys) {
    forall d, i :: d in s.cached && 0 <= i < |s.cached[d]| ==> s.cached[d][i].dpid == d
  }

  // How often p waits in the cache.
  function Kept(s: Sys, p: Port): nat {
    Count(Cached(s, p.dpid), p)
  }

  /** Does the action carry out a link-up of p? */
  ghost predicate ActsOn(s: Sys, a: Action, p: Port) {
    a == ActLink && s.pending.Tested? && s.pending.port == p
  }

  /** Is it a link-down of p for a switch with cached link-ups? It then takes those of p back,
      and is itself not told. */
  ghost predicate TakesBack(s: Sys, a: Action, p: Port) {
    a == DropLink(p) && s.pending == NoLink && Cached(s, p.dpid) != []
  }

  /** What a step does to the link-ups and link-downs of one port. */
  ghost predicate Accounts(s: Sys, a: Action, s': Sys, p: Port) {
    && Count(s'.told, LinkUp(p)) + Kept(s', p) + (if TakesBack(s, a, p) then Kept(s, p) else 0) ==
       Count(s.told, LinkUp(p)) + Kept(s, p) + (if ActsOn(s, a, p) then 1 else 0)
    && Count(s'.told, LinkDown(p)) ==
       Count(s.told, LinkDown(p)) +
       (if a == DropLink(p) && s.pending == NoLink && Cached(s, p.dpid) == [] then 1 else 0)
  }

  lemma {:induction false} QuietAccounts(s: Sys, a: Action, s': Sys, p: Port)
    requires s'.told == s.told && s'.cached == s.cached && !ActsOn(s, a, p)
    requires !(a == DropLink(p) && s.pending == NoLink)
    ensures Accounts(s, a, s', p)
  {
  }

  lemma {:induction false} CountEmpty(p: Port)
    ensures Count([], p) == 0
  {
  }

  lemma {:induction false} FinishAccounts(s: Sys, t: nat, p: Port)
    requires At(s, t, Handling) && CachedAtHome(s)
    ensures Accounts(s, Finish(t), DoFinish(s, t), p) && CachedAtHome(DoFinish(s, t))
  {
    CountEmpty(p);
    hide Count, Ups, Remove;
    var s', d := DoFinish(s, t), s.handlers[t].dpid;
    if s.handlers[t].kind == Up {
      CountConcat(s.told, Ups(Cached(s, d)), LinkUp(p));
      CountConcat(s.told, Ups(Cached(s, d)), LinkDown(p));
      CountUps(Cached(s, d), p);
      if p.dpid != d {
        CountNone(Cached(s, d), p);
      }
    }
  }

  lemma {:induction false} ActAccounts(s: Sys, p: Port)
    requires CachedAtHome(s)
    ensures Accounts(s, ActLink, DoActLink(s), p) && CachedAtHome(DoActLink(s))
  {
    hide Count;
    if s.pending.Tested? {
      var q := s.pending.port;
      CountConcat(s.told, [LinkUp(q)], LinkUp(p));
      CountConcat(s.told, [LinkUp(q)], LinkDown(p));
      CountOne(LinkUp(q), LinkUp(p));
      CountOne(LinkUp(q), LinkDown(p));
      CountConcat(Cached(s, q.dpid), [q], p);
      CountOne(q, p);
    }
  }

  lemma {:induction false} DropAccounts(s: Sys, q: Port, p: Port)
    requires CachedAtHome(s) && s.pending == NoLink
    ensures Accounts(s, DropLink(q), DoDropLink(s, q), p) && CachedAtHome(DoDropLink(s, q))
  {
    hide Count;
    if Cached(s, q.dpid) != [] {
      CountRemove(s.cached[q.dpid], q, p);
      RemoveMembers(s.cached[q.dpid], q);
      var r := Remove(s.cached[q.dpid], q);
      forall i | 0 <= i < |r| ensures r[i].dpid == q.dpid {
        assert r[i] in r;
      }
    } else {
      CountConcat(s.told, [LinkDown(q)], LinkUp(p));
      CountConcat(s.told, [LinkDown(q)], LinkDown(p));
      CountOne(LinkDown(q), LinkUp(p));
      CountOne(LinkDown(q), LinkDown(p));
    }
  }

  /** A link-up carried out is told at once or cached; it leaves the cache only by being told,
      when its switch has come up, or by being taken back. A link-down is told iff its switch
      has nothing cached. No other step tells or caches anything. */
  lemma {:induction false} StepAccounts(s: Sys, a: Action, p: Port)
    requires CachedAtHome(s)
    ensures Accounts(s, a, Step(s, a), p) && CachedAtHome(Step(s, a))
  {
    hide Accounts, CachedAtHome, DoFinish, DoActLink, DoDropLink, Kept;
    match a
    case Finish(t) =>
      if At(s, t, Handling) {
        FinishAccounts(s, t, p);
      } else {
        QuietAccounts(s, a, s, p);
      }
    case ActLink => ActAccounts(s, p);
    case DropLink(q) =>
      if s.pending == NoLink {
        DropAccounts(s, q, p);
      } else {
        QuietAccounts(s, a, s, p);
      }
    case _ =>
      QuietAccounts(s, a, Step(s, a), p);
      SameCache(s, Step(s, a));
  }

  lemma {:induction false} SameCache(s: Sys, s': Sys)
    requires CachedAtHome(s) && s'.cached == s.cached
    ensures CachedAtHome(s')
  {
  }

  /** The link-ups of p carried out in a run, and those taken back. */
  ghost function CarriedOut(acts: seq<Action>, p: Port): nat {
    if acts == [] then 0
    else
      var n := |acts| - 1;
      CarriedOut(acts[..n], p) + if ActsOn(Run(acts[..n]), acts[n], p) then 1 else 0
  }

  ghost function TakenBack(acts: seq<Action>, p: Port): nat {
    if acts == [] then 0
    else
      var n := |acts| - 1;
      TakenBack(acts[..n], p) + if TakesBack(Run(acts[..n]), acts[n], p) then Kept(Run(acts[..n]), p) else 0
  }

  /** In every interleaving, the link-ups of a port carried out are exactly those told, those in
      the cache and those taken back by a link-down while its switch had link-ups cached. */
  lemma {:induction false} LinkUpsConserved(acts: seq<Action>, p: Port)
    ensures CachedAtHome(Run(acts))
    ensures CarriedOut(acts, p) == Count(Run(acts).told, LinkUp(p)) + Kept(Run(acts), p) + TakenBack(acts, p)
  {
    hide Step, CachedAtHome, Kept, ActsOn, TakesBack;
    if acts == [] {
      NothingCached(p);
    } else {
      var n := |acts| - 1;
      LinkUpsConserved(acts[..n], p);
      StepAccounts(Run(acts[..n]), acts[n], p);
    }
  }

  lemma {:induction false} NothingCached(p: Port)
    ensures CachedAtHome(INIT) && Kept(INIT, p) == 0
  {
  }

  lemma {:induction false} RunThen(acts: seq<Action>, a: Action)
    ensures Run(acts + [a]) == Step(Run(acts), a)
  {
    assert (acts + [a])[..|acts|] == acts;
  }

  // A switch-up of switch 1 is being handled when a link-up of its port 1 is tested.
  const RACED := Sys({1}, [Handler(1, Up, Handling)], map[1 := 0], [], [(1, Up)], map[], Tested(Port(1, 1), false), [])

  lemma {:induction false} RaceReachable() returns (acts: seq<Action>)
    ensures Run(acts) == RACED
  {
    RunThen([], Connect(1));
    var a1 := [] + [Connect(1)];
    RunThen(a1, Lock(0));
    RunThen(a1 + [Lock(0)], Decide(0));
    acts := a1 + [Lock(0)] + [Decide(0)] + [TestLink(Port(1, 1))];
    RunThen(a1 + [Lock(0)] + [Decide(0)], TestLink(Port(1, 1)));
  }

  /** The test and the caching are two lock regions, and a switch-up that finishes between
      them leaves the link in the cache of a connected switch: the applications are not told of
      it, at least until the switch comes up again, and link-downs of that switch are swallowed
      meanwhile. */
  lemma {:induction false} LinkLost()
    ensures exists acts :: var s := Run(acts);
              && !CacheClean(s) && s.told == [] && s.pending == NoLink
              && DoDropLink(s, Port(1, 2)).told == []
  {
    var acts := RaceReachable();
    RunThen(acts, Finish(0));
    RunThen(acts + [Finish(0)], ActLink);
    var s := Step(Step(RACED, Finish(0)), ActLink);
    assert 1 in s.connected && Cached(s, 1) == [Port(1, 1)];
  }
}
