/** Triggers of a path with flap damping (struct Path in src/core/Topology.cc).

    Broken and Maintenance count how many elements of the path are down; Drop and Util are
    single bits.  Going inactive can be delayed by a timer.  The applications are told of a
    trigger only through the signals recorded in the log. */
module Triggers {

  datatype Flag = Broken | Maintenance | Drop | Util

  predicate Counted(tf: Flag) {
    tf == Broken || tf == Maintenance
  }

  const U8: nat := 256

  type uint8 = x: int | 0 <= x < 256

  // The counters are 8 bits wide and wrap around.
  function Inc(n: uint8): uint8 {
    if n == 255 then 0 else n + 1
  }

  function Dec(n: uint8): uint8 {
    if n == 0 then 255 else n - 1
  }

  datatype Path = Path(triggers: set<Flag>, broken: uint8, maintn: uint8, timers: set<Flag>, flap: nat)

  datatype Signal = Active(tf: Flag) | Inactive(tf: Flag)

  function Counter(p: Path, tf: Flag): uint8 {
    if tf == Broken then p.broken else if tf == Maintenance then p.maintn else 0
  }

  function WithCounter(p: Path, tf: Flag, n: uint8): Path {
    if tf == Broken then p.(broken := n) else if tf == Maintenance then p.(maintn := n) else p
  }

  function SetTrigger(p: Path, tf: Flag): Path {
    WithCounter(p.(triggers := p.triggers + {tf}), tf, Inc(Counter(p, tf)))
  }

  function DelTrigger(p: Path, tf: Flag): Path {
    var n := Dec(Counter(p, tf));
    if Counted(tf) && n != 0 then WithCounter(p, tf, n)
    else WithCounter(p, tf, n).(triggers := p.triggers - {tf})
  }

  /** Clearing a trigger undoes setting it exactly if its bit agreed with its counter. */
  lemma {:induction false} DelUndoesSet(p: Path, tf: Flag)
    ensures DelTrigger(SetTrigger(p, tf), tf) == p <==> (tf in p.triggers <==> Counter(p, tf) != 0)
  {
    var p' := DelTrigger(SetTrigger(p, tf), tf);
    assert p.triggers + {tf} - {tf} == p.triggers - {tf};
    if tf in p.triggers {
      assert p.triggers + {tf} == p.triggers;
    } else {
      assert p.triggers - {tf} == p.triggers;
    }
    assert Counter(p', tf) == Counter(p, tf);
    assert tf in p'.triggers <==> Counted(tf) && Counter(p, tf) != 0;
  }

  /** And setting it undoes clearing it exactly if it was set, even if the counter wrapped. */
  lemma {:induction false} SetUndoesDel(p: Path, tf: Flag)
    ensures SetTrigger(DelTrigger(p, tf), tf) == p <==> tf in p.triggers
  {
    if tf in p.triggers {
      assert p.triggers - {tf} + {tf} == p.triggers;
      assert p.triggers + {tf} == p.triggers;
    }
  }

  function Activate(p: Path, tf: Flag): (Path, seq<Signal>) {
    if tf in p.timers then (p.(timers := p.timers - {tf}), [])
    else (SetTrigger(p, tf), if tf in p.triggers then [] else [Active(tf)])
  }

  function Inactivate(p: Path, tf: Flag): (Path, seq<Signal>) {
    if tf in p.timers then (DelTrigger(p, tf), [])
    else if p.flap != 0 then (p.(timers := p.timers + {tf}), [])
    else
      var p' := DelTrigger(p, tf);
      (p', if tf in p'.triggers then [] else [Inactive(tf)])
  }

  /** The timer of tf fires: the delayed decrement happens now. */
  function Timeout(p: Path, tf: Flag): (Path, seq<Signal>) {
    var p' := DelTrigger(p, tf);
    (p'.(timers := p'.timers - {tf}), if tf in p'.triggers then [] else [Inactive(tf)])
  }

  // ---------------------------------------------------------------------------
  // Runs
  // ---------------------------------------------------------------------------

  /** An element of the path fails or recovers, the statistics cross a threshold either way,
      a timer fires, or the damping interval is changed. */
  datatype Event =
    | Fail(tf: Flag, element: nat)
    | Recover(tf: Flag, element: nat)
    | Sample(tf: Flag, overload: bool)
    | Fire(tf: Flag)
    | SetFlap(flap: nat)

  // The path, which elements are down for each counted trigger, and the signals so far.
  datatype World = World(path: Path, down: map<Flag, set<nat>>, log: seq<Signal>)

  const INIT := World(Path({}, 0, 0, {}, 0), map[Broken := {}, Maintenance := {}], [])

  function Down(w: World, tf: Flag): set<nat> {
    if tf in w.down then w.down[tf] else {}
  }

  /** Elements fail only when up and recover only when down; a timer fires only if set. */
  predicate Balanced(w: World, e: Event) {
    match e
    case Fail(tf, x) => Counted(tf) && x !in Down(w, tf)
    case Recover(tf, x) => Counted(tf) && x in Down(w, tf)
    case Sample(tf, _) => !Counted(tf)
    case Fire(tf) => tf in w.path.timers
    case SetFlap(_) => true
  }

  function After(w: World, r: (Path, seq<Signal>)): World {
    w.(path := r.0, log := w.log + r.1)
  }

  function Step(w: World, e: Event): World {
    match e
    case Fail(tf, x) => After(w, Activate(w.path, tf)).(down := w.down[tf := Down(w, tf) + {x}])
    case Recover(tf, x) => After(w, Inactivate(w.path, tf)).(down := w.down[tf := Down(w, tf) - {x}])
    case Sample(tf, overload) =>
      if overload then After(w, Activate(w.path, tf))
      else if tf in w.path.triggers && tf !in w.path.timers then After(w, Inactivate(w.path, tf))
      else w
    case Fire(tf) => After(w, Timeout(w.path, tf))
    case SetFlap(n) => w.(path := w.path.(flap := n))
  }

  function Run(es: seq<Event>): World {
    if es == [] then INIT else Step(Run(es[..|es| - 1]), es[|es| - 1])
  }

  /** What a counter stands for. */
  function Load(w: World, tf: Flag): nat {
    |Down(w, tf)| + if tf in w.path.timers then 1 else 0
  }

  ghost predicate BalancedRun(es: seq<Event>) {
    es == [] || (BalancedRun(es[..|es| - 1]) && Balanced(Run(es[..|es| - 1]), es[|es| - 1]))
  }

  datatype Live = Bad | Good(active: set<Flag>)

  /** The triggers the applications believe active, or Bad once one is announced active
      while active or inactive while not. */
  ghost function Replay(log: seq<Signal>): Live {
    if log == [] then Good({})
    else
      match Replay(log[..|log| - 1])
      case Bad => Bad
      case Good(s) =>
        match log[|log| - 1]
        case Active(tf) => if tf in s then Bad else Good(s + {tf})
        case Inactive(tf) => if tf !in s then Bad else Good(s - {tf})
  }

  /** Each counter is its load, as far as eight bits go. */
  ghost predicate CountersTrack(w: World) {
    forall tf :: Counted(tf) ==> Counter(w.path, tf) == Load(w, tf) % 256
  }

  ghost predicate BitOk(w: World, tf: Flag) {
    if Counted(tf) then tf in w.path.triggers <==> Load(w, tf) > 0
    else tf in w.path.timers ==> tf in w.path.triggers
  }

  /** What an application relies on: a counted trigger is set iff its load is positive, and the
      signals of every trigger alternate, starting with active, the last telling its state. */
  ghost predicate Law(w: World) {
    (forall tf :: BitOk(w, tf)) && Replay(w.log) == Good(w.path.triggers)
  }

  /** A decrement brings the load to a positive multiple of 256. */
  ghost predicate Wraps(w: World, e: Event) {
    && (e.Recover? || e.Fire?) && Counted(e.tf)
    && var n := Load(Step(w, e), e.tf);
       0 < n < Load(w, e.tf) && n % 256 == 0
  }

  lemma {:induction false} ReplayLast(log: seq<Signal>, x: Signal)
    ensures Replay(log + [x]) ==
            match Replay(log)
            case Bad => Bad
            case Good(s) =>
              match x
              case Active(tf) => if tf in s then Bad else Good(s + {tf})
              case Inactive(tf) => if tf !in s then Bad else Good(s - {tf})
  {
    assert (log + [x])[..|log|] == log;
  }

  /** Signals are emitted exactly when a bit changes. */
  ghost predicate Tells(p: Path, r: (Path, seq<Signal>), tf: Flag) {
    && r.0.triggers - {tf} == p.triggers - {tf}
    && r.1 == (if tf in r.0.triggers && tf !in p.triggers then [Active(tf)]
               else if tf !in r.0.triggers && tf in p.triggers then [Inactive(tf)]
               else [])
  }

  lemma {:induction false} TellsReplay(w: World, r: (Path, seq<Signal>), tf: Flag)
    requires Replay(w.log) == Good(w.path.triggers) && Tells(w.path, r, tf)
    ensures Replay(After(w, r).log) == Good(r.0.triggers)
  {
    if r.1 == [] {
      assert w.log + [] == w.log;
      assert forall f :: f in r.0.triggers <==> f in w.path.triggers by {
        forall f ensures f in r.0.triggers <==> f in w.path.triggers {
          if f != tf {
            assert f in r.0.triggers - {tf} <==> f in w.path.triggers - {tf};
          }
        }
      }
    } else {
      ReplayLast(w.log, r.1[0]);
      forall f | f != tf ensures f in r.0.triggers <==> f in w.path.triggers {
        assert f in r.0.triggers - {tf} <==> f in w.path.triggers - {tf};
      }
      if tf in r.0.triggers {
        assert r.0.triggers == w.path.triggers + {tf};
      } else {
        assert r.0.triggers == w.path.triggers - {tf};
      }
    }
  }

  lemma {:induction false} CounterMoves(n: nat)
    ensures Inc(n % 256) == (n + 1) % 256 && Dec((n + 1) % 256) == n % 256
  {
  }

  lemma {:induction false} SetCounters(p: Path, tf: Flag)
    ensures var p' := SetTrigger(p, tf);
            && p'.timers == p.timers && p'.flap == p.flap && p'.triggers == p.triggers + {tf}
            && (Counted(tf) ==> Counter(p', tf) == Inc(Counter(p, tf)))
            && forall f :: f != tf ==> Counter(p', f) == Counter(p, f)
  {
  }

  lemma {:induction false} FailCounters(w: World, tf: Flag, x: nat)
    requires CountersTrack(w) && Balanced(w, Fail(tf, x))
    ensures CountersTrack(Step(w, Fail(tf, x)))
  {
    var w' := Step(w, Fail(tf, x));
    assert Down(w', tf) == Down(w, tf) + {x};
    assert forall f :: f != tf ==> Down(w', f) == Down(w, f);
    SetCounters(w.path, tf);
    hide SetTrigger, CountersTrack;
    CounterAfter(w, w', tf);
  }

  lemma {:induction false} ActivateTells(p: Path, tf: Flag)
    ensures Tells(p, Activate(p, tf), tf)
  {
    SetCounters(p, tf);
    hide SetTrigger;
  }

  lemma {:induction false} FailBits(w: World, tf: Flag, x: nat)
    requires (forall f :: BitOk(w, f)) && Balanced(w, Fail(tf, x))
    ensures forall f :: BitOk(Step(w, Fail(tf, x)), f)
  {
    var w' := Step(w, Fail(tf, x));
    assert Down(w', tf) == Down(w, tf) + {x};
    assert forall f :: f != tf ==> Down(w', f) == Down(w, f);
    SetCounters(w.path, tf);
    hide SetTrigger, Inc, Counter;
    assert BitOk(w, tf);
    assert BitOk(w', tf);
    forall f | f != tf ensures BitOk(w', f) {
      assert BitOk(w, f);
    }
  }

  lemma {:induction false} FailLaw(w: World, tf: Flag, x: nat)
    requires Law(w) && Balanced(w, Fail(tf, x))
    ensures Law(Step(w, Fail(tf, x)))
  {
    hide BitOk, Activate, Replay;
    FailBits(w, tf, x);
    ActivateTells(w.path, tf);
    TellsReplay(w, Activate(w.path, tf), tf);
  }

  // What a decrement of the load leaves: the counter follows, the bit goes iff it reads zero.
  lemma {:induction false} DelSteps(p: Path, tf: Flag, n: nat)
    requires Counted(tf) && tf in p.triggers && Counter(p, tf) == (n + 1) % 256
    ensures var p' := DelTrigger(p, tf);
            && Counter(p', tf) == n % 256 && (tf in p'.triggers <==> n % 256 != 0)
            && p'.timers == p.timers && p'.triggers - {tf} == p.triggers - {tf}
            && forall f :: f != tf ==> Counter(p', f) == Counter(p, f)
  {
    CounterMoves(n);
  }

  lemma {:induction false} DelCounters(p: Path, tf: Flag)
    ensures var p' := DelTrigger(p, tf);
            && p'.timers == p.timers && p'.flap == p.flap
            && (Counted(tf) ==> Counter(p', tf) == Dec(Counter(p, tf)))
            && forall f :: f != tf ==> Counter(p', f) == Counter(p, f)
  {
  }

  // The load of a trigger after one more or one less of it.
  lemma {:induction false} CounterAfter(w: World, w': World, tf: Flag)
    requires CountersTrack(w) && forall f :: f != tf ==> Load(w', f) == Load(w, f) && Counter(w'.path, f) == Counter(w.path, f)
    requires Counted(tf) ==>
               || (Load(w', tf) == Load(w, tf) && Counter(w'.path, tf) == Counter(w.path, tf))
               || (Load(w', tf) == Load(w, tf) + 1 && Counter(w'.path, tf) == Inc(Counter(w.path, tf)))
               || (Load(w', tf) == Load(w, tf) - 1 && Counter(w'.path, tf) == Dec(Counter(w.path, tf)))
    ensures CountersTrack(w')
  {
    hide Load, Counter;
    CounterMoves(Load(w, tf));
    if Load(w, tf) > 0 {
      CounterMoves(Load(w, tf) - 1);
    }
  }

  lemma {:induction false} RecoverCounters(w: World, tf: Flag, x: nat)
    requires CountersTrack(w) && Balanced(w, Recover(tf, x))
    ensures CountersTrack(Step(w, Recover(tf, x)))
  {
    var w' := Step(w, Recover(tf, x));
    assert Down(w', tf) == Down(w, tf) - {x};
    assert forall f :: f != tf ==> Down(w', f) == Down(w, f);
    DelCounters(w.path, tf);
    hide DelTrigger, CountersTrack;
    CounterAfter(w, w', tf);
  }

  lemma {:induction false} RecoverLaw(w: World, tf: Flag, x: nat)
    requires CountersTrack(w) && Law(w) && Balanced(w, Recover(tf, x))
    ensures Law(Step(w, Recover(tf, x))) <==> !Wraps(w, Recover(tf, x))
  {
    var w' := Step(w, Recover(tf, x));
    assert Down(w', tf) == Down(w, tf) - {x};
    assert forall f :: f != tf ==> Down(w', f) == Down(w, f);
    assert BitOk(w, tf);
    DelSteps(w.path, tf, Load(w, tf) - 1);
    forall f | f != tf ensures BitOk(w', f) {
      assert BitOk(w, f);
      OtherFlags(w.path, Inactivate(w.path, tf).0, tf, f);
    }
    if Wraps(w, Recover(tf, x)) {
      assert !BitOk(w', tf);
    } else {
      assert BitOk(w', tf);
      TellsReplay(w, Inactivate(w.path, tf), tf);
    }
  }

  lemma {:induction false} OtherFlags(p: Path, p': Path, tf: Flag, f: Flag)
    requires p'.triggers - {tf} == p.triggers - {tf} && f != tf
    ensures f in p'.triggers <==> f in p.triggers
  {
    assert f in p'.triggers - {tf} <==> f in p.triggers - {tf};
  }

  lemma {:induction false} FireCounters(w: World, tf: Flag)
    requires CountersTrack(w) && Balanced(w, Fire(tf))
    ensures CountersTrack(Step(w, Fire(tf)))
  {
    if Counted(tf) {
      CounterMoves(Load(w, tf) - 1);
    }
  }

  lemma {:induction false} FireLaw(w: World, tf: Flag)
    requires CountersTrack(w) && Law(w) && Balanced(w, Fire(tf))
    ensures Law(Step(w, Fire(tf))) <==> !Wraps(w, Fire(tf))
  {
    var w' := Step(w, Fire(tf));
    assert BitOk(w, tf);
    if Counted(tf) {
      DelSteps(w.path, tf, Load(w, tf) - 1);
    }
    forall f | f != tf ensures BitOk(w', f) {
      assert BitOk(w, f);
      OtherFlags(w.path, w'.path, tf, f);
    }
    if Wraps(w, Fire(tf)) {
      assert !BitOk(w', tf);
    } else {
      assert BitOk(w', tf);
      TellsReplay(w, Timeout(w.path, tf), tf);
    }
  }

  lemma {:induction false} SampleSteps(w: World, tf: Flag, overload: bool)
    requires CountersTrack(w) && Balanced(w, Sample(tf, overload))
    ensures CountersTrack(Step(w, Sample(tf, overload)))
    ensures Law(w) ==> Law(Step(w, Sample(tf, overload)))
  {
    var w' := Step(w, Sample(tf, overload));
    if Law(w) {
      assert BitOk(w, tf);
      forall f | f != tf ensures BitOk(w', f) {
        assert BitOk(w, f);
      }
      if overload {
        TellsReplay(w, Activate(w.path, tf), tf);
      } else if w' != w {
        TellsReplay(w, Inactivate(w.path, tf), tf);
      }
    }
  }

  /** Every balanced event keeps the counters on their loads modulo 256. It keeps the law iff it
      is not a decrement that brings the load to a positive multiple of 256. */
  lemma {:induction false} StepExactly(w: World, e: Event)
    requires CountersTrack(w) && Balanced(w, e)
    ensures CountersTrack(Step(w, e))
    ensures Law(w) ==> (Law(Step(w, e)) <==> !Wraps(w, e))
  {
    hide Law, Wraps, CountersTrack;
    match e
    case Fail(tf, x) =>
      FailCounters(w, tf, x);
      if Law(w) {
        FailLaw(w, tf, x);
      }
      NoDecrement(w, e);
    case Recover(tf, x) =>
      RecoverCounters(w, tf, x);
      if Law(w) {
        RecoverLaw(w, tf, x);
      }
    case Sample(tf, overload) =>
      SampleSteps(w, tf, overload);
      NoDecrement(w, e);
    case Fire(tf) =>
      FireCounters(w, tf);
      if Law(w) {
        FireLaw(w, tf);
      }
    case SetFlap(n) =>
      FlapSteps(w, n);
      NoDecrement(w, e);
  }

  lemma {:induction false} NoDecrement(w: World, e: Event)
    requires !e.Recover? && !e.Fire?
    ensures !Wraps(w, e)
  {
  }

  lemma {:induction false} FlapSteps(w: World, n: nat)
    requires CountersTrack(w)
    ensures CountersTrack(Step(w, SetFlap(n))) && (Law(w) ==> Law(Step(w, SetFlap(n))))
  {
    var w' := Step(w, SetFlap(n));
    assert forall f :: Load(w', f) == Load(w, f) && Counter(w'.path, f) == Counter(w.path, f);
    if Law(w) {
      forall f ensures BitOk(w', f) {
        assert BitOk(w, f);
      }
    }
  }

  ghost predicate NeverWraps(es: seq<Event>) {
    es == [] || (NeverWraps(es[..|es| - 1]) && !Wraps(Run(es[..|es| - 1]), es[|es| - 1]))
  }

  ghost predicate LawThroughout(es: seq<Event>) {
    (es == [] || LawThroughout(es[..|es| - 1])) && Law(Run(es))
  }

  /** In every balanced run the counters are the loads modulo 256, and the law holds throughout
      iff no decrement brings a load to a positive multiple of 256. */
  lemma {:induction false} TriggersExactly(es: seq<Event>)
    requires BalancedRun(es)
    ensures CountersTrack(Run(es))
    ensures LawThroughout(es) <==> NeverWraps(es)
  {
    hide Step, Law, Wraps, CountersTrack;
    if es == [] {
      InitLaw();
    } else {
      var n := |es| - 1;
      TriggersExactly(es[..n]);
      StepExactly(Run(es[..n]), es[n]);
      LastLaw(es[..n]);
    }
  }

  lemma {:induction false} LastLaw(es: seq<Event>)
    ensures LawThroughout(es) ==> Law(Run(es))
  {
  }

  lemma {:induction false} InitLaw()
    ensures CountersTrack(INIT) && Law(INIT)
  {
    assert forall tf :: BitOk(INIT, tf);
  }

  /** No load gets beyond the width of its counter. */
  ghost predicate Narrow(es: seq<Event>) {
    (es == [] || Narrow(es[..|es| - 1])) && Load(Run(es), Broken) < U8 && Load(Run(es), Maintenance) < U8
  }

  /** So within the width of the counters, every balanced run keeps the law, and a counter is the
      number of elements down, plus one while a timer delays. */
  lemma {:induction false} TriggersFollow(es: seq<Event>)
    requires BalancedRun(es) && Narrow(es)
    ensures LawThroughout(es) && forall tf :: Counted(tf) ==> Counter(Run(es).path, tf) == Load(Run(es), tf)
  {
    hide Run, LawThroughout, NeverWraps, BalancedRun;
    TriggersExactly(es);
    NarrowNeverWraps(es);
    NarrowNow(es);
    hide Narrow, Load, Counter;
    forall tf | Counted(tf) ensures Counter(Run(es).path, tf) == Load(Run(es), tf) {
      assert Load(Run(es), tf) < 256;
    }
  }

  lemma {:induction false} NarrowNow(es: seq<Event>)
    requires Narrow(es)
    ensures forall tf :: Counted(tf) ==> Load(Run(es), tf) < 256
  {
  }

  lemma {:induction false} NarrowStep(w: World, e: Event)
    requires forall tf :: Counted(tf) ==> Load(w, tf) < 256
    ensures !Wraps(w, e)
  {
    hide Step, Load;
  }

  lemma {:induction false} NarrowNeverWraps(es: seq<Event>)
    requires BalancedRun(es) && Narrow(es)
    ensures NeverWraps(es)
  {
    hide Run, Wraps, Load;
    if es != [] {
      var n := |es| - 1;
      NarrowNeverWraps(es[..n]);
      NarrowNow(es[..n]);
      NarrowStep(Run(es[..n]), es[n]);
    }
  }

  /** When the last element recovers, the trigger is inactive at once without damping, and
      otherwise as soon as the timer fires. */
  lemma {:induction false} RecoveryIsTold(w: World, tf: Flag, x: nat)
    requires CountersTrack(w) && Law(w) && Counted(tf) && Down(w, tf) == {x}
    ensures var w' := Step(w, Recover(tf, x));
            && (tf in w'.path.timers <==> tf in w.path.timers || w.path.flap != 0)
            && if tf in w'.path.timers then
                 tf in w'.path.triggers && tf !in Step(w', Fire(tf)).path.triggers
               else tf !in w'.path.triggers
  {
    assert BitOk(w, tf);
  }

  // ---------------------------------------------------------------------------
  // Flap damping
  // ---------------------------------------------------------------------------

  /** With a damping interval and no timer pending, a recovery sets the timer, and nothing else
      changes: no bit, no counter, no signal. */
  lemma {:induction false} RecoveryIsDamped(w: World, tf: Flag, x: nat)
    requires w.path.flap != 0 && tf !in w.path.timers
    ensures var w' := Step(w, Recover(tf, x));
            w'.path == w.path.(timers := w.path.timers + {tf}) && w'.log == w.log
  {
    assert w.log + [] == w.log;
  }

  /** A further recovery while the timer is pending is silent too, and the timer stays. */
  lemma {:induction false} PendingIsSilent(w: World, tf: Flag, x: nat)
    requires tf in w.path.timers
    ensures var w' := Step(w, Recover(tf, x)); w'.log == w.log && w'.path.timers == w.path.timers
  {
    assert w.log + [] == w.log;
  }

  /** A recovery and a failure before the timer fires cancel out: the path is as it was, and
      nobody was told of either. */
  lemma {:induction false} FlapIsAbsorbed(w: World, tf: Flag, x: nat, y: nat)
    requires w.path.flap != 0 && tf !in w.path.timers
    ensures var w' := Step(Step(w, Recover(tf, x)), Fail(tf, y));
            w'.path == w.path && w'.log == w.log
  {
    RecoveryIsDamped(w, tf, x);
    assert w.path.timers + {tf} - {tf} == w.path.timers;
    assert w.log + [] == w.log;
  }

  ghost function Inactives(log: seq<Signal>): nat {
    if log == [] then 0
    else Inactives(log[..|log| - 1]) + if log[|log| - 1].Inactive? then 1 else 0
  }

  lemma {:induction false} InactivesMore(log: seq<Signal>, out: seq<Signal>)
    requires |out| <= 1
    ensures Inactives(log + out) == Inactives(log) + if out != [] && out[0].Inactive? then 1 else 0
  {
    if out == [] {
      assert log + out == log;
    } else {
      assert (log + out)[..|log|] == log;
    }
  }

  function Fires(es: seq<Event>): nat {
    if es == [] then 0 else Fires(es[..|es| - 1]) + if es[|es| - 1].Fire? then 1 else 0
  }

  /** While the damping interval is not zero, only a timer that fires makes a trigger be told
      inactive, and then once. */
  lemma {:induction false} OnlyFireTells(w: World, e: Event)
    requires w.path.flap != 0
    ensures var n := Inactives(Step(w, e).log) - Inactives(w.log);
            n == 0 || (n == 1 && e.Fire?)
  {
    assert w.log + [] == w.log;
    match e
    case Fail(tf, x) => InactivesMore(w.log, Activate(w.path, tf).1);
    case Recover(tf, x) => InactivesMore(w.log, Inactivate(w.path, tf).1);
    case Sample(tf, overload) =>
      InactivesMore(w.log, Activate(w.path, tf).1);
      InactivesMore(w.log, Inactivate(w.path, tf).1);
    case Fire(tf) => InactivesMore(w.log, Timeout(w.path, tf).1);
    case SetFlap(_) =>
  }

  /** The interval is the one set last. */
  lemma {:induction false} IntervalIsKept(w: World, e: Event)
    ensures Step(w, e).path.flap == if e.SetFlap? then e.flap else w.path.flap
  {
  }

  /** So from any point with an interval that is never set to zero, no run tells a trigger
      inactive more often than timers fire. */
  lemma {:induction false} DampedRun(before: seq<Event>, es: seq<Event>)
    requires Run(before).path.flap != 0 && forall i :: 0 <= i < |es| ==> es[i] != SetFlap(0)
    ensures Run(before + es).path.flap != 0
    ensures Inactives(Run(before + es).log) <= Inactives(Run(before).log) + Fires(es)
  {
    hide Step, Inactives;
    if es == [] {
      assert before + es == before;
    } else {
      var n := |es| - 1;
      DampedRun(before, es[..n]);
      assert before + es == before + es[..n] + [es[n]];
      RunThen(before + es[..n], es[n]);
      IntervalIsKept(Run(before + es[..n]), es[n]);
      OnlyFireTells(Run(before + es[..n]), es[n]);
    }
  }

  /** A sample over the threshold leaves its trigger set with no timer pending; one below it ends
      the trigger at once without an interval, and otherwise as soon as the timer fires. */
  lemma {:induction false} SampleIsTold(w: World, tf: Flag)
    requires Law(w) && !Counted(tf)
    ensures var w' := Step(w, Sample(tf, true)); tf in w'.path.triggers && tf !in w'.path.timers
    ensures var w' := Step(w, Sample(tf, false));
            if tf in w'.path.timers then tf in w'.path.triggers && tf !in Step(w', Fire(tf)).path.triggers
            else tf !in w'.path.triggers
    ensures tf in Step(w, Sample(tf, false)).path.timers <==>
            tf in w.path.triggers && (tf in w.path.timers || w.path.flap != 0)
  {
    assert BitOk(w, tf);
  }

  // ---------------------------------------------------------------------------
  // Where the law stops
  // ---------------------------------------------------------------------------

  /** After a decrement that wraps and is announced, the applications hold the trigger inactive
      while elements are down, and the next decrement announces it inactive a second time. */
  lemma {:induction false} SecondInactive(w: World, e: Event, x: nat)
    requires CountersTrack(w) && Law(w) && Balanced(w, e) && Wraps(w, e)
    requires var w1 := Step(w, e);
             e.tf !in w1.path.timers && w1.path.flap == 0 && x in Down(w1, e.tf)
    ensures var w1 := Step(w, e);
            && Replay(w1.log) == Good(w1.path.triggers) && e.tf !in w1.path.triggers && Load(w1, e.tf) > 0
            && Replay(Step(w1, Recover(e.tf, x)).log) == Bad
  {
    WrapTold(w, e);
    var tf, w1 := e.tf, Step(w, e);
    var w2 := Step(w1, Recover(tf, x));
    assert w2.log == w1.log + [Inactive(tf)] by { StaysOff(w1.path, tf); }
    hide Step, Load;
    ReplayLast(w.log, Inactive(tf));
    ReplayLast(w1.log, Inactive(tf));
  }

  lemma {:induction false} StaysOff(p: Path, tf: Flag)
    requires tf !in p.triggers && tf !in p.timers && p.flap == 0
    ensures Inactivate(p, tf).1 == [Inactive(tf)]
  {
  }

  lemma {:induction false} WrapTold(w: World, e: Event)
    requires CountersTrack(w) && Law(w) && Balanced(w, e) && Wraps(w, e) && e.tf !in Step(w, e).path.timers
    ensures e.tf in w.path.triggers && Step(w, e).log == w.log + [Inactive(e.tf)]
    ensures Step(w, e).path.triggers == w.path.triggers - {e.tf}
  {
    var tf := e.tf;
    assert BitOk(w, tf);
    if e.Recover? {
      assert Down(Step(w, e), tf) == Down(w, tf) - {e.element};
    }
    DelSteps(w.path, tf, Load(w, tf) - 1);
  }

  function Failures(n: nat): seq<Event> {
    if n == 0 then [] else Failures(n - 1) + [Fail(Broken, n - 1)]
  }

  ghost function Below(n: nat): set<nat> {
    if n == 0 then {} else Below(n - 1) + {n - 1}
  }

  lemma {:induction false} BelowSize(n: nat)
    ensures |Below(n)| == n && forall x: nat :: x in Below(n) <==> x < n
  {
    if n > 0 {
      BelowSize(n - 1);
    }
  }

  lemma {:induction false} RunThen(es: seq<Event>, e: Event)
    ensures Run(es + [e]) == Step(Run(es), e)
    ensures BalancedRun(es + [e]) <==> BalancedRun(es) && Balanced(Run(es), e)
  {
    assert (es + [e])[..|es|] == es;
  }

  /** The state after n failures of different elements. */
  ghost predicate Failed(w: World, n: nat) {
    Down(w, Broken) == Below(n) && w.path.timers == {} && w.path.flap == 0
  }

  lemma {:induction false} FailedMore(w: World, n: nat)
    requires Failed(w, n)
    ensures Balanced(w, Fail(Broken, n)) && Failed(Step(w, Fail(Broken, n)), n + 1)
  {
    BelowSize(n);
    SetCounters(w.path, Broken);
  }

  lemma {:induction false} FailuresRun(n: nat)
    ensures BalancedRun(Failures(n)) && NeverWraps(Failures(n)) && Failed(Run(Failures(n)), n)
  {
    hide Failed, Wraps, Balanced, Step;
    if n == 0 {
      NothingFailed();
    } else {
      var es, e := Failures(n - 1), Fail(Broken, n - 1);
      FailuresRun(n - 1);
      FailedMore(Run(es), n - 1);
      RunThen(es, e);
      NoDecrement(Run(es), e);
      assert (es + [e])[..|es|] == es;
    }
  }

  lemma {:induction false} NothingFailed()
    ensures Failed(INIT, 0)
  {
  }

  lemma {:induction false} WrapStep(w: World, n: nat)
    requires Failed(w, n + 1) && n > 1 && n % 256 == 0
    ensures Balanced(w, Recover(Broken, 0)) && Wraps(w, Recover(Broken, 0))
    ensures var w1 := Step(w, Recover(Broken, 0));
            Broken !in w1.path.timers && w1.path.flap == 0 && 1 in Down(w1, Broken)
  {
    BelowSize(n + 1);
    hide Below;
    var w1 := Step(w, Recover(Broken, 0));
    assert Down(w1, Broken) == Below(n + 1) - {0};
    DelCounters(w.path, Broken);
  }

  /** 257 failures and two recoveries: the first recovery wraps, and the second announces the
      trigger inactive once more. */
  lemma {:induction false} WrapReached() returns (es: seq<Event>)
    ensures BalancedRun(es) && !NeverWraps(es) && Replay(Run(es).log) == Bad
  {
    hide Failures, Step, Law, Wraps, Replay, Failed, CountersTrack;
    var f, r1, r2 := Failures(257), Recover(Broken, 0), Recover(Broken, 1);
    es := f + [r1] + [r2];
    FailuresRun(257);
    TriggersExactly(f);
    LastLaw(f);
    WrapStep(Run(f), 256);
    RunThen(f, r1);
    RunThen(f + [r1], r2);
    SecondInactive(Run(f), r1, 1);
    WrapSeen(f, r1, r2);
  }

  lemma {:induction false} WrapSeen(es: seq<Event>, e: Event, e': Event)
    requires Wraps(Run(es), e)
    ensures !NeverWraps(es + [e] + [e'])
  {
    hide Wraps, Run;
    assert (es + [e] + [e'])[..|es| + 1] == es + [e] && (es + [e])[..|es|] == es;
  }

  function Reset(w: World): World {
    w.(path := w.path.(triggers := {}))
  }

  /** Selecting a path clears its bits but not its counters: the law survives exactly if no
      trigger was active, and otherwise the next failure is announced a second time. */
  lemma {:induction false} ResetExactly(w: World)
    requires Law(w)
    ensures Law(Reset(w)) <==> w.path.triggers == {}
    ensures forall tf, x | Counted(tf) && tf in w.path.triggers && tf !in w.path.timers ::
              Replay(Step(Reset(w), Fail(tf, x)).log) == Bad
  {
    if w.path.triggers == {} {
      assert Reset(w) == w;
    }
    forall tf, x | Counted(tf) && tf in w.path.triggers && tf !in w.path.timers
      ensures Replay(Step(Reset(w), Fail(tf, x)).log) == Bad
    {
      ReplayLast(w.log, Active(tf));
    }
  }

  // ---------------------------------------------------------------------------
  // The path object
  // ---------------------------------------------------------------------------

  class PathTriggers {
    var triggers: set<Flag>
    var brokenLinks: uint8
    var maintnLinks: uint8
    var timers: set<Flag>
    var flap: nat

    constructor ()
      ensures View() == INIT.path
    {
      triggers, brokenLinks, maintnLinks, timers, flap := {}, 0, 0, {}, 0;
    }

    ghost function View(): Path
      reads this
    {
      Path(triggers, brokenLinks, maintnLinks, timers, flap)
    }

    method Set(tf: Flag)
      modifies this
      ensures View() == SetTrigger(old(View()), tf)
    {
      triggers := triggers + {tf};
      match tf
      case Broken => brokenLinks := Inc(brokenLinks);
      case Maintenance => maintnLinks := Inc(maintnLinks);
      case _ =>
    }

    method Del(tf: Flag)
      modifies this
      ensures View() == DelTrigger(old(View()), tf)
    {
      match tf
      case Broken =>
        brokenLinks := Dec(brokenLinks);
        if brokenLinks == 0 { triggers := triggers - {tf}; }
      case Maintenance =>
        maintnLinks := Dec(maintnLinks);
        if maintnLinks == 0 { triggers := triggers - {tf}; }
      case _ =>
        triggers := triggers - {tf};
    }

    method ActivateTrigger(tf: Flag) returns (needEmit: bool)
      modifies this
      ensures (View(), if needEmit then [Active(tf)] else []) == Activate(old(View()), tf)
    {
      if tf in timers {
        timers := timers - {tf};
        return false;
      }
      needEmit := tf !in triggers;
      Set(tf);
    }

    method InactivateTrigger(tf: Flag) returns (needEmit: bool)
      modifies this
      ensures (View(), if needEmit then [Inactive(tf)] else []) == Inactivate(old(View()), tf)
    {
      if tf in timers {
        Del(tf);
        return false;
      }
      if flap != 0 {
        timers := timers + {tf};
        return false;
      }
      Del(tf);
      needEmit := tf !in triggers;
    }

    method OnTimeout(tf: Flag) returns (emitted: bool)
      modifies this
      ensures (View(), if emitted then [Inactive(tf)] else []) == Timeout(old(View()), tf)
    {
      Del(tf);
      emitted := tf !in triggers;
      timers := timers - {tf};
    }
  }
}
