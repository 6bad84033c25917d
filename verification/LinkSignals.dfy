/** The order in which link signals reach their listeners (src/core/LinkDiscovery.cc:209-219,
    231-235, 271-276).

    A link changes under the lock, but the signal that tells of it is emitted after the lock
    has been released, by whichever thread made the change.  So signals may overtake each
    other: an undelivered signal can be emitted at any later moment. */
module LinkSignals {
  import opened LinkDiscovery
  import opened LinkSafety

  /** A change under the lock, or the emission of the k-th undelivered signal. */
  datatype Action = Change(event: Event) | Emit(k: nat)

  // log holds the signals in the order of the changes, box those not yet emitted.
  datatype Desk = Down | Up(st: State, log: seq<Signal>, box: seq<Signal>, emitted: seq<Signal>)

  function Without(s: seq<Signal>, k: nat): seq<Signal>
    requires k < |s|
  {
    s[..k] + s[k + 1..]
  }

  function Act(d: Desk, a: Action, hold: nat): Desk {
    if d.Down? then Down
    else
      match a
      case Change(e) =>
        (match Step(d.st, e, hold)
         case Crash => Down
         case Next(st, out) => Up(st, d.log + out, d.box + out, d.emitted))
      case Emit(k) =>
        if k < |d.box| then d.(box := Without(d.box, k), emitted := d.emitted + [d.box[k]]) else d
  }

  function Acts(actions: seq<Action>, hold: nat): Desk {
    if actions == [] then Up(EMPTY, [], [], [])
    else Act(Acts(actions[..|actions| - 1], hold), actions[|actions| - 1], hold)
  }

  function Changes(actions: seq<Action>): seq<Event> {
    if actions == [] then []
    else
      var rest, a := Changes(actions[..|actions| - 1]), actions[|actions| - 1];
      if a.Change? then rest + [a.event] else rest
  }

  /** Under the lock, the actions are a run of the events. */
  lemma {:induction false} ActsRun(actions: seq<Action>, hold: nat)
    ensures var d, o := Acts(actions, hold), Run(Changes(actions), hold);
            (d.Down? <==> o.Crash?) && (d.Up? ==> d.st == o.state && d.log == o.signals)
  {
    hide Step;
    if actions != [] {
      var n := |actions| - 1;
      ActsRun(actions[..n], hold);
      if actions[n].Change? {
        var all := Changes(actions);
        assert all[..|all| - 1] == Changes(actions[..n]);
      }
    }
  }

  // ---------------------------------------------------------------------------
  // The signals of one pair
  // ---------------------------------------------------------------------------

  function Pair(x: Signal): (Port, Port) {
    (x.from, x.to)
  }

  function Of(s: seq<Signal>, p: (Port, Port)): seq<Signal> {
    if s == [] then []
    else Of(s[..|s| - 1], p) + if Pair(s[|s| - 1]) == p then [s[|s| - 1]] else []
  }

  lemma {:induction false} OfConcat(s: seq<Signal>, t: seq<Signal>, p: (Port, Port))
    ensures Of(s + t, p) == Of(s, p) + Of(t, p)
  {
    if t == [] {
      assert s + t == s;
    } else {
      var n := |t| - 1;
      OfConcat(s, t[..n], p);
      assert (s + t)[..|s| + n] == s + t[..n];
    }
  }

  lemma {:induction false} OfOne(x: Signal, p: (Port, Port))
    ensures Of([x], p) == if Pair(x) == p then [x] else []
  {
    assert [x][..0] == [];
  }

  lemma {:induction false} OfPair(s: seq<Signal>, p: (Port, Port))
    ensures forall i :: 0 <= i < |Of(s, p)| ==> Pair(Of(s, p)[i]) == p
  {
    if s != [] {
      OfPair(s[..|s| - 1], p);
    }
  }

  /** Taking out element k of a box takes it out of the signals of its pair. */
  lemma {:induction false} OfWithout(box: seq<Signal>, k: nat, p: (Port, Port))
    requires k < |box|
    ensures Of(box, p) == Of(box[..k], p) + Of([box[k]], p) + Of(box[k + 1..], p)
    ensures Of(Without(box, k), p) == Of(box[..k], p) + Of(box[k + 1..], p)
  {
    assert box == box[..k] + [box[k]] + box[k + 1..];
    OfConcat(box[..k] + [box[k]], box[k + 1..], p);
    OfConcat(box[..k], [box[k]], p);
    OfConcat(box[..k], box[k + 1..], p);
  }

  /** Discovered and broken in turn, starting with discovered. */
  ghost predicate Alternates(s: seq<Signal>) {
    forall i :: 0 <= i < |s| ==> (s[i].Discovered? <==> i % 2 == 0)
  }

  lemma {:induction false} ReplayAlternates(out: seq<Signal>, p: (Port, Port))
    requires Replay(Some({}), out).Some?
    ensures Alternates(Of(out, p))
    ensures p in Replay(Some({}), out).pairs <==> |Of(out, p)| % 2 == 1
  {
    if out != [] {
      ReplayAlternates(out[..|out| - 1], p);
    }
  }

  // Alternating sequences of one pair differ only in length.
  lemma {:induction false} AlternatingPrefix(s: seq<Signal>, t: seq<Signal>, p: (Port, Port))
    requires |s| <= |t| && Alternates(t)
    requires (forall i :: 0 <= i < |s| ==> Pair(s[i]) == p) && forall i :: 0 <= i < |t| ==> Pair(t[i]) == p
    ensures Alternates(s) <==> s <= t
  {
    if Alternates(s) {
      forall i | 0 <= i < |s| ensures s[i] == t[i] {
        assert s[i].Discovered? <==> t[i].Discovered?;
        assert Pair(s[i]) == Pair(t[i]);
      }
    }
  }

  lemma {:induction false} AlternatesSnoc(s: seq<Signal>, x: Signal)
    requires Alternates(s)
    ensures Alternates(s + [x]) <==> (x.Discovered? <==> |s| % 2 == 0)
  {
    assert (s + [x])[|s|] == x;
  }

  ghost predicate Primary(actions: seq<Action>) {
    NoReload(Changes(actions))
  }

  /** In the order of the changes, the signals of every pair alternate, and tell whether the
      pair is linked. */
  lemma {:induction false} ChangesAlternate(actions: seq<Action>, hold: nat, p: (Port, Port))
    requires Primary(actions) && Acts(actions, hold).Up?
    ensures var d := Acts(actions, hold);
            Alternates(Of(d.log, p)) && (p in Pairs(d.st.links) <==> |Of(d.log, p)| % 2 == 1)
  {
    ActsRun(actions, hold);
    SignalsAlternate(Changes(actions), hold);
    ReplayAlternates(Acts(actions, hold).log, p);
  }

  // ---------------------------------------------------------------------------
  // The order of emission
  // ---------------------------------------------------------------------------

  /** Nothing is emitted that did not happen, or twice. */
  lemma {:induction false} Counted(actions: seq<Action>, hold: nat, p: (Port, Port))
    requires Acts(actions, hold).Up?
    ensures var d := Acts(actions, hold); |Of(d.emitted, p)| + |Of(d.box, p)| == |Of(d.log, p)|
  {
    hide Step, Of;
    if actions == [] {
      OfNothing(p);
    } else {
      var n := |actions| - 1;
      Counted(actions[..n], hold, p);
      var d := Acts(actions[..n], hold);
      match actions[n]
      case Change(e) =>
        OfConcat(d.log, Step(d.st, e, hold).signals, p);
        OfConcat(d.box, Step(d.st, e, hold).signals, p);
      case Emit(k) =>
        if k < |d.box| {
          OfWithout(d.box, k, p);
          OfConcat(d.emitted, [d.box[k]], p);
        }
    }
  }

  lemma {:induction false} OfNothing(p: (Port, Port))
    ensures Of([], p) == []
  {
  }

  /** In every run, the signals emitted for a pair alternate iff they read as the changes do:
      as a prefix of them. */
  lemma {:induction false} EmittedExactly(actions: seq<Action>, hold: nat, p: (Port, Port))
    requires Primary(actions) && Acts(actions, hold).Up?
    ensures var d := Acts(actions, hold);
            Alternates(Of(d.emitted, p)) <==> Of(d.emitted, p) <= Of(d.log, p)
  {
    hide Of, Alternates, Acts;
    var d := Acts(actions, hold);
    ChangesAlternate(actions, hold, p);
    Counted(actions, hold, p);
    OfPair(d.emitted, p);
    OfPair(d.log, p);
    AlternatingPrefix(Of(d.emitted, p), Of(d.log, p), p);
  }

  /** So far the signals of p were emitted in the order of the changes. */
  ghost predicate InOrder(d: Desk, p: (Port, Port)) {
    d.Up? ==> Of(d.emitted, p) + Of(d.box, p) == Of(d.log, p)
  }

  /** The number of older undelivered signals of the same pair that emitting k overtakes. */
  ghost function Overtaken(d: Desk, k: nat): nat
    requires d.Up? && k < |d.box|
  {
    |Of(d.box[..k], Pair(d.box[k]))|
  }

  /** Which emission spoils it: while the signals told of a pair alternate, emitting one more
      keeps that iff it is a discovery exactly when an even number were told. */
  lemma {:induction false} EmitExactly(d: Desk, k: nat, hold: nat)
    requires d.Up? && k < |d.box| && Alternates(Of(d.emitted, Pair(d.box[k])))
    ensures var told := Of(d.emitted, Pair(d.box[k]));
            Alternates(Of(Act(d, Emit(k), hold).emitted, Pair(d.box[k]))) <==>
            (d.box[k].Discovered? <==> |told| % 2 == 0)
  {
    hide Of;
    var x, p := d.box[k], Pair(d.box[k]);
    OfOne(x, p);
    OfConcat(d.emitted, [x], p);
    AlternatesSnoc(Of(d.emitted, p), x);
  }

  /** After emissions in order, that is: iff it overtakes an even number of older ones. */
  lemma {:induction false} OvertakeExactly(actions: seq<Action>, hold: nat, k: nat)
    requires Primary(actions) && Acts(actions, hold).Up? && k < |Acts(actions, hold).box|
    requires InOrder(Acts(actions, hold), Pair(Acts(actions, hold).box[k]))
    ensures var d := Acts(actions, hold);
            Alternates(Of(Act(d, Emit(k), hold).emitted, Pair(d.box[k]))) <==> Overtaken(d, k) % 2 == 0
  {
    hide Of, Acts, Step;
    var d := Acts(actions, hold);
    var x, p := d.box[k], Pair(d.box[k]);
    ChangesAlternate(actions, hold, p);
    OfWithout(d.box, k, p);
    OfOne(x, p);
    OfConcat(d.emitted, [x], p);
    var told, j := Of(d.emitted, p), Overtaken(d, k);
    assert Of(d.log, p)[|told| + j] == x;
    assert forall i :: 0 <= i < |told| ==> Of(d.log, p)[i] == told[i];
    assert (|told| + j) % 2 == |told| % 2 <==> j % 2 == 0;
    EmitExactly(d, k, hold);
  }

  /** No emission overtakes an older undelivered signal of its pair. */
  ghost predicate Orderly(actions: seq<Action>, hold: nat) {
    actions == [] ||
    (var n := |actions| - 1;
     var d, a := Acts(actions[..n], hold), actions[n];
     Orderly(actions[..n], hold) && (a.Emit? && d.Up? && a.k < |d.box| ==> Overtaken(d, a.k) == 0))
  }

  lemma {:induction false} OrderlyInOrder(actions: seq<Action>, hold: nat, p: (Port, Port))
    requires Orderly(actions, hold)
    ensures InOrder(Acts(actions, hold), p)
  {
    hide Step, Of;
    if actions == [] {
      OfNothing(p);
    } else {
      var n := |actions| - 1;
      OrderlyInOrder(actions[..n], hold, p);
      var d := Acts(actions[..n], hold);
      if d.Up? && Acts(actions, hold).Up? {
        match actions[n]
        case Change(e) =>
          var out := Step(d.st, e, hold).signals;
          OfConcat(d.log, out, p);
          OfConcat(d.box, out, p);
          assert Of(d.emitted, p) + (Of(d.box, p) + Of(out, p)) == Of(d.emitted, p) + Of(d.box, p) + Of(out, p);
        case Emit(k) =>
          if k < |d.box| {
            EmitInOrder(d, k, p);
          }
      }
    }
  }

  lemma {:induction false} EmitInOrder(d: Desk, k: nat, p: (Port, Port))
    requires d.Up? && InOrder(d, p) && k < |d.box| && Overtaken(d, k) == 0
    ensures Of(d.emitted + [d.box[k]], p) + Of(Without(d.box, k), p) == Of(d.log, p)
  {
    hide Of;
    OfWithout(d.box, k, p);
    OfConcat(d.emitted, [d.box[k]], p);
    OfOne(d.box[k], p);
    if Pair(d.box[k]) == p {
      assert Of(d.box[..k], p) == [];
    }
  }

  /** What a listener holds that adds a pair when it is discovered and drops it when broken. */
  ghost predicate Shown(emitted: seq<Signal>, p: (Port, Port)) {
    var s := Of(emitted, p);
    s != [] && s[|s| - 1].Discovered?
  }

  /** If no signal overtakes an older one of its pair, the emitted signals alternate for every
      pair, and once all are delivered a listener holds exactly the links. */
  lemma {:induction false} OrderlyAlternates(actions: seq<Action>, hold: nat, p: (Port, Port))
    requires Primary(actions) && Acts(actions, hold).Up? && Orderly(actions, hold)
    ensures var d := Acts(actions, hold);
            && Alternates(Of(d.emitted, p))
            && (d.box == [] ==> (Shown(d.emitted, p) <==> p in Pairs(d.st.links)))
  {
    hide Acts, Orderly;
    var d := Acts(actions, hold);
    OrderlyInOrder(actions, hold, p);
    EmittedExactly(actions, hold, p);
    ChangesAlternate(actions, hold, p);
    if d.box == [] {
      assert Of(d.emitted, p) + [] == Of(d.emitted, p);
    }
  }

  // ---------------------------------------------------------------------------
  // The race
  // ---------------------------------------------------------------------------

  lemma {:induction false} ActsStep(actions: seq<Action>, a: Action, hold: nat)
    ensures Acts(actions + [a], hold) == Act(Acts(actions, hold), a, hold)
  {
    assert (actions + [a])[..|actions|] == actions;
  }

  lemma {:induction false} PortDownBreaks()
    ensures RemoveBroken(REWIRED_2, PORT_A) == Next(State([], [LINK_AB], map[]), [Broken(PORT_A, PORT_B)])
  {
    assert Erase([LINK_AB], PORT_A, PORT_B) == [];
    assert REWIRED_2.index - {PORT_A, PORT_B} == map[];
  }

  lemma {:induction false} ActChange(actions: seq<Action>, e: Event, d: Desk, st: State, out: seq<Signal>)
    requires Acts(actions, 10) == d && d.Up? && Step(d.st, e, 10) == Next(st, out)
    ensures Acts(actions + [Change(e)], 10) == Up(st, d.log + out, d.box + out, d.emitted)
  {
    ActsStep(actions, Change(e), 10);
  }

  // The state after the three changes, with both signals undelivered.
  lemma {:induction false} RaceStarts(a1: seq<Action>, a2: seq<Action>, a3: seq<Action>)
    requires a1 == [] + [Change(Seen(PORT_A, PORT_B))] && a2 == a1 + [Change(Seen(PORT_B, PORT_A))]
    requires a3 == a2 + [Change(PortDown(PORT_A, 0))]
    ensures var s := [Discovered(PORT_A, PORT_B), Broken(PORT_A, PORT_B)];
            Acts(a3, 10) == Up(State([], [LINK_AB], map[]), s, s, [])
  {
    hide HandleBeacon, RemoveBroken;
    var found, lost := Discovered(PORT_A, PORT_B), Broken(PORT_A, PORT_B);
    FirstBeacons();
    PortDownBreaks();
    ActChange([], Seen(PORT_A, PORT_B), Up(EMPTY, [], [], []), REWIRED_1, []);
    hide Acts;
    ActChange(a1, Seen(PORT_B, PORT_A), Up(REWIRED_1, [], [], []), REWIRED_2, [found]);
    ActChange(a2, PortDown(PORT_A, 0), Up(REWIRED_2, [found], [found], []), State([], [LINK_AB], map[]), [lost]);
    assert [] + [found] == [found] && [found] + [lost] == [found, lost];
  }

  lemma {:induction false} RaceEnds(d: Desk)
    requires d.Up? && d.box == [Discovered(PORT_A, PORT_B), Broken(PORT_A, PORT_B)] && d.emitted == []
    ensures Act(Act(d, Emit(1), 10), Emit(0), 10) ==
            d.(box := [], emitted := [Broken(PORT_A, PORT_B)] + [Discovered(PORT_A, PORT_B)])
  {
    assert Act(d, Emit(1), 10).box == [Discovered(PORT_A, PORT_B)];
  }

  /** A link is found, its port goes down before the discovery is told, and the two signals pass
      each other: all is delivered, there is no link, and the listener holds one for good. */
  lemma {:induction false} DeadLinkShown() returns (actions: seq<Action>)
    ensures Primary(actions) && Acts(actions, 10).Up?
    ensures var d := Acts(actions, 10);
            && d.box == [] && d.st.links == [] && Shown(d.emitted, (PORT_A, PORT_B))
            && !Alternates(Of(d.emitted, (PORT_A, PORT_B)))
  {
    hide Acts, Act, Of, Primary;
    var found, lost := Discovered(PORT_A, PORT_B), Broken(PORT_A, PORT_B);
    var a1 := [] + [Change(Seen(PORT_A, PORT_B))];
    var a2 := a1 + [Change(Seen(PORT_B, PORT_A))];
    var a3 := a2 + [Change(PortDown(PORT_A, 0))];
    var a4 := a3 + [Emit(1)];
    actions := a4 + [Emit(0)];
    RaceStarts(a1, a2, a3);
    ActsStep(a3, Emit(1), 10);
    ActsStep(a4, Emit(0), 10);
    RaceEnds(Acts(a3, 10));
    OfConcat([lost], [found], (PORT_A, PORT_B));
    OfOne(lost, (PORT_A, PORT_B));
    OfOne(found, (PORT_A, PORT_B));
    RaceEvents(a1, a2, a3, a4, actions);
    assert Of([lost] + [found], (PORT_A, PORT_B))[0] == lost;
  }

  lemma {:induction false} ChangesStep(actions: seq<Action>, a: Action)
    ensures Changes(actions + [a]) == if a.Change? then Changes(actions) + [a.event] else Changes(actions)
  {
    assert (actions + [a])[..|actions|] == actions;
  }

  lemma {:induction false} RaceEvents(a1: seq<Action>, a2: seq<Action>, a3: seq<Action>, a4: seq<Action>, a5: seq<Action>)
    requires a1 == [] + [Change(Seen(PORT_A, PORT_B))] && a2 == a1 + [Change(Seen(PORT_B, PORT_A))]
    requires a3 == a2 + [Change(PortDown(PORT_A, 0))] && a4 == a3 + [Emit(1)] && a5 == a4 + [Emit(0)]
    ensures Primary(a5)
  {
    ChangesStep([], Change(Seen(PORT_A, PORT_B)));
    ChangesStep(a1, Change(Seen(PORT_B, PORT_A)));
    ChangesStep(a2, Change(PortDown(PORT_A, 0)));
    ChangesStep(a3, Emit(1));
    ChangesStep(a4, Emit(0));
  }
}
