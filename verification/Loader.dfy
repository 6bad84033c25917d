/** Loading of applications with their dependencies (src/core/Loader.cc).

    `Initialize` is a depth-first search that colours applications while it mutates the
    table.  Applications are named by the interface they provide. */
module Loader {

  datatype AppState = Registered | Initializing | Initialized | Started

  // For every registered application, the names it depends on, in order.
  type Graph = map<string, seq<string>>

  // NotFound is the null pointer; Fatal is the cycle report that ends the process.
  datatype Outcome = NotFound | Found | Fatal

  // The states of the applications and the order in which they were initialised.
  datatype World = World(states: map<string, AppState>, log: seq<string>)

  predicate Fits(g: Graph, w: World) {
    w.states.Keys == g.Keys
  }

  ghost function Pending(w: World): set<string> {
    set a | a in w.states && w.states[a] == Registered
  }

  ghost function Initialize(g: Graph, w: World, s: string): (r: (Outcome, World))
    requires Fits(g, w)
    ensures Fits(g, r.1) && Pending(r.1) <= Pending(w)
    ensures r.0 == Found ==> s in g
    decreases Pending(w), 0
  {
    if s !in g then (NotFound, w)
    else if w.states[s] != Registered then (Found, w)
    else
      var w0 := w.(states := w.states[s := Initializing]);
      assert s in Pending(w) && s !in Pending(w0);
      var (o, w1) := InitializeAll(g, w0, g[s]);
      if o != Found then (o, w1)
      else (Found, World(w1.states[s := Initialized], w1.log + [s]))
  }

  ghost function InitializeAll(g: Graph, w: World, ds: seq<string>): (r: (Outcome, World))
    requires Fits(g, w)
    ensures Fits(g, r.1) && Pending(r.1) <= Pending(w)
    decreases Pending(w), |ds| + 1
  {
    if ds == [] then (Found, w)
    else
      var (o, w1) := Initialize(g, w, ds[0]);
      if o != Found then (o, w1)
      else if w1.states[ds[0]] == Initializing then (Fatal, w1)
      else InitializeAll(g, w1, ds[1..])
  }

  /** The configured services in turn; a service that is not found is passed over. */
  ghost function Services(g: Graph, w: World, ss: seq<string>): (r: (Outcome, World))
    requires Fits(g, w)
    ensures Fits(g, r.1)
    decreases |ss|
  {
    if ss == [] then (Found, w)
    else
      var (o, w1) := Initialize(g, w, ss[0]);
      if o == Fatal then (Fatal, w1) else Services(g, w1, ss[1..])
  }

  function Fresh(g: Graph): World {
    World(map a | a in g :: Registered, [])
  }

  // ---------------------------------------------------------------------------
  // Initialised at most once, and only after the dependencies
  // ---------------------------------------------------------------------------

  ghost predicate NoRepeats(log: seq<string>) {
    forall i, j :: 0 <= i < j < |log| ==> log[i] != log[j]
  }

  ghost predicate DependenciesFirst(g: Graph, log: seq<string>) {
    forall i :: 0 <= i < |log| ==> log[i] in g && forall d :: d in g[log[i]] ==> d in log[..i]
  }

  ghost predicate Ready(st: AppState) {
    st == Initialized || st == Started
  }

  ghost predicate LogOk(g: Graph, w: World) {
    && Fits(g, w) && NoRepeats(w.log) && DependenciesFirst(g, w.log)
    && forall a :: a in g ==> (Ready(w.states[a]) <==> a in w.log)
  }

  lemma {:induction false} LogGrows(g: Graph, w: World, s: string)
    requires LogOk(g, w) && s in g && !Ready(w.states[s])
    requires forall d :: d in g[s] ==> d in w.log
    ensures LogOk(g, World(w.states[s := Initialized], w.log + [s]))
  {
    var log := w.log + [s];
    forall i | 0 <= i < |log| ensures log[i] in g && forall d :: d in g[log[i]] ==> d in log[..i] {
      if i < |w.log| {
        assert log[..i] == w.log[..i];
      } else {
        assert log[..i] == w.log;
      }
    }
  }

  // The application being worked on stays out of the log meanwhile.
  lemma {:induction false} InitializeKeepsLog(g: Graph, w: World, s: string)
    requires LogOk(g, w)
    ensures var (o, w') := Initialize(g, w, s);
            && LogOk(g, w') && w.log <= w'.log
            && (forall a :: a in g && w.states[a] == Initializing ==> w'.states[a] == Initializing)
            && (o == Found && w'.states[s] != Initializing ==> s in w'.log)
    decreases Pending(w), 0
  {
    if s in g && w.states[s] == Registered {
      var w0 := w.(states := w.states[s := Initializing]);
      assert s in Pending(w) && s !in Pending(w0);
      InitializeAllKeepsLog(g, w0, g[s]);
      var (o, w1) := InitializeAll(g, w0, g[s]);
      if o == Found {
        LogGrows(g, w1, s);
        assert (w1.log + [s])[|w1.log|] == s;
      }
    }
  }

  lemma {:induction false} InitializeAllKeepsLog(g: Graph, w: World, ds: seq<string>)
    requires LogOk(g, w)
    ensures var (o, w') := InitializeAll(g, w, ds);
            && LogOk(g, w') && w.log <= w'.log
            && (forall a :: a in g && w.states[a] == Initializing ==> w'.states[a] == Initializing)
            && (o == Found ==> forall d :: d in ds ==> d in w'.log)
    decreases Pending(w), |ds| + 1
  {
    hide NoRepeats, DependenciesFirst, Initialize;
    if ds != [] {
      InitializeKeepsLog(g, w, ds[0]);
      var (o, w1) := Initialize(g, w, ds[0]);
      if o == Found && w1.states[ds[0]] != Initializing {
        InitializeAllKeepsLog(g, w1, ds[1..]);
        assert ds == [ds[0]] + ds[1..];
      }
    }
  }

  /** Whatever the configuration and however loading ends, no application is initialised
      twice and none before all its dependencies. */
  lemma {:induction false} LoadingOrder(g: Graph, w: World, ss: seq<string>)
    requires LogOk(g, w)
    ensures LogOk(g, Services(g, w, ss).1)
    decreases |ss|
  {
    if ss != [] {
      InitializeKeepsLog(g, w, ss[0]);
      LoadingOrder(g, Initialize(g, w, ss[0]).1, ss[1..]);
    }
  }

  // ---------------------------------------------------------------------------
  // The dependency graph
  // ---------------------------------------------------------------------------

  ghost predicate Edge(g: Graph, a: string, b: string) {
    a in g && b in g[a]
  }

  ghost predicate Walk(g: Graph, p: seq<string>) {
    forall i :: 0 <= i < |p| - 1 ==> Edge(g, p[i], p[i + 1])
  }

  /** Some walk from s visits a name twice. */
  ghost predicate Cyclic(g: Graph, s: string) {
    exists p :: |p| > 0 && p[0] == s && Walk(g, p) && !NoRepeats(p)
  }

  /** Some walk from s ends at a name nobody registered. */
  ghost predicate Missing(g: Graph, s: string) {
    exists p :: |p| > 0 && p[0] == s && Walk(g, p) && p[|p| - 1] !in g
  }

  /** Such a name can never be initialised. */
  ghost predicate Bad(g: Graph, s: string) {
    Cyclic(g, s) || Missing(g, s)
  }

  // A bad dependency makes its dependent bad.
  lemma {:induction false} BadBefore(g: Graph, s: string, d: string)
    requires Edge(g, s, d)
    ensures Cyclic(g, d) ==> Cyclic(g, s)
    ensures Missing(g, d) ==> Missing(g, s)
  {
    if Cyclic(g, d) {
      var p :| |p| > 0 && p[0] == d && Walk(g, p) && !NoRepeats(p);
      var i, j :| 0 <= i < j < |p| && p[i] == p[j];
      var q := [s] + p;
      assert Walk(g, q) && q[i + 1] == q[j + 1];
    }
    if Missing(g, d) {
      var p :| |p| > 0 && p[0] == d && Walk(g, p) && p[|p| - 1] !in g;
      var q := [s] + p;
      assert Walk(g, q) && q[|q| - 1] !in g;
    }
  }

  // A registered bad name has a bad dependency.
  lemma {:induction false} BadAfter(g: Graph, s: string) returns (d: string)
    requires Bad(g, s) && s in g
    ensures Edge(g, s, d) && Bad(g, d)
  {
    if Missing(g, s) {
      var p :| |p| > 0 && p[0] == s && Walk(g, p) && p[|p| - 1] !in g;
      d := p[1];
      assert Edge(g, p[0], p[0 + 1]);
      var q := p[1..];
      assert Walk(g, q) && q[|q| - 1] !in g;
    } else {
      var p :| |p| > 0 && p[0] == s && Walk(g, p) && !NoRepeats(p);
      var i, j :| 0 <= i < j < |p| && p[i] == p[j];
      d := p[1];
      assert Edge(g, p[0], p[0 + 1]);
      if i == 0 {
        var q := p[1..j + 1] + [d];
        assert q[0] == q[|q| - 1];
        assert Walk(g, q);
      } else {
        var q := p[1..];
        assert Walk(g, q) && q[i - 1] == q[j - 1];
      }
    }
  }

  // ---------------------------------------------------------------------------
  // Success means: acyclic and complete
  // ---------------------------------------------------------------------------

  ghost function Position(log: seq<string>, a: string): nat
    requires a in log
    ensures Position(log, a) < |log| && log[Position(log, a)] == a
  {
    if log[0] == a then 0 else 1 + Position(log[1..], a)
  }

  // A walk from the log stays in it and runs towards its beginning.
  lemma {:induction false} WalkDescends(g: Graph, log: seq<string>, p: seq<string>, i: nat, j: nat)
    requires NoRepeats(log) && DependenciesFirst(g, log) && Walk(g, p) && |p| > 0 && p[0] in log
    requires i <= j < |p|
    ensures p[i] in log && p[j] in log
    ensures i < j ==> Position(log, p[j]) < Position(log, p[i])
    decreases j
  {
    if j > 0 {
      WalkDescends(g, log, p, if i < j then i else j - 1, j - 1);
      var k := Position(log, p[j - 1]);
      assert Edge(g, p[j - 1], p[j - 1 + 1]);
      assert p[j] in log[..k];
      var m :| 0 <= m < k && log[..k][m] == p[j];
      assert log[m] == log[Position(log, p[j])];
    }
  }

  lemma {:induction false} LoggedIsAcyclic(g: Graph, log: seq<string>, s: string)
    requires NoRepeats(log) && DependenciesFirst(g, log) && s in log
    ensures !Cyclic(g, s) && !Missing(g, s)
  {
    if Cyclic(g, s) {
      var p :| |p| > 0 && p[0] == s && Walk(g, p) && !NoRepeats(p);
      var i, j :| 0 <= i < j < |p| && p[i] == p[j];
      WalkDescends(g, log, p, i, j);
      assert false;
    }
    if Missing(g, s) {
      var p :| |p| > 0 && p[0] == s && Walk(g, p) && p[|p| - 1] !in g;
      WalkDescends(g, log, p, |p| - 1, |p| - 1);
      assert false;
    }
  }

  // ---------------------------------------------------------------------------
  // A service whose closure is acyclic and complete is always initialised
  // ---------------------------------------------------------------------------

  /** Being initialised, or left half initialised by an earlier call. */
  predicate Jammed(w: World, a: string) {
    a in w.states && w.states[a] == Initializing
  }

  ghost predicate SameJam(w: World, w': World) {
    forall a :: Jammed(w, a) <==> Jammed(w', a)
  }

  /** No walk from s reaches a jammed application. */
  ghost predicate Clear(g: Graph, w: World, s: string) {
    forall p :: |p| > 0 && p[0] == s && Walk(g, p) ==> !Jammed(w, p[|p| - 1])
  }

  lemma {:induction false} ClearBelow(g: Graph, w: World, s: string, d: string)
    requires Fits(g, w) && Clear(g, w, s) && !Bad(g, s) && Edge(g, s, d)
    ensures !Bad(g, d) && Clear(g, w.(states := w.states[s := Initializing]), d)
  {
    BadBefore(g, s, d);
    forall p | |p| > 0 && p[0] == d && Walk(g, p) ensures !Jammed(w, p[|p| - 1]) && p[|p| - 1] != s {
      var q := [s] + p;
      assert Walk(g, q) && q[|q| - 1] == p[|p| - 1];
      assert NoRepeats(q) && q[0] != q[|q| - 1];
    }
  }

  lemma {:induction false} GoodLoads(g: Graph, w: World, s: string)
    requires Fits(g, w) && !Bad(g, s) && Clear(g, w, s)
    ensures var (o, w') := Initialize(g, w, s);
            o == Found && SameJam(w, w') && !Jammed(w', s)
    decreases Pending(w), 0
  {
    assert s in g by { assert Walk(g, [s]); }
    assert !Jammed(w, s) by { assert Walk(g, [s]); }
    if w.states[s] == Registered {
      var w0 := w.(states := w.states[s := Initializing]);
      assert s in Pending(w) && s !in Pending(w0);
      forall d | d in g[s] ensures !Bad(g, d) && Clear(g, w0, d) {
        ClearBelow(g, w, s, d);
      }
      GoodLoadsAll(g, w0, g[s]);
      var w1 := InitializeAll(g, w0, g[s]).1;
      forall a ensures Jammed(w, a) <==> Jammed(World(w1.states[s := Initialized], w1.log + [s]), a) {
        assert Jammed(w0, a) <==> Jammed(w1, a);
      }
    }
  }

  lemma {:induction false} ClearSame(g: Graph, w: World, w': World, s: string)
    requires Clear(g, w, s) && SameJam(w, w')
    ensures Clear(g, w', s)
  {
  }

  lemma {:induction false} GoodLoadsAll(g: Graph, w: World, ds: seq<string>)
    requires Fits(g, w) && forall d :: d in ds ==> !Bad(g, d) && Clear(g, w, d)
    ensures var (o, w') := InitializeAll(g, w, ds); o == Found && SameJam(w, w')
    decreases Pending(w), |ds| + 1
  {
    if ds != [] {
      GoodLoads(g, w, ds[0]);
      var w1 := Initialize(g, w, ds[0]).1;
      forall d | d in ds[1..] ensures !Bad(g, d) && Clear(g, w1, d) {
        ClearSame(g, w, w1, d);
      }
      GoodLoadsAll(g, w1, ds[1..]);
    }
  }

  // ---------------------------------------------------------------------------
  // A service that cannot be initialised: the trail of blame
  // ---------------------------------------------------------------------------

  ghost function FirstBad(g: Graph, ds: seq<string>): (k: nat)
    ensures k <= |ds|
    ensures k < |ds| ==> Bad(g, ds[k])
    ensures forall i :: 0 <= i < k ==> !Bad(g, ds[i])
  {
    if ds == [] || Bad(g, ds[0]) then 0 else 1 + FirstBad(g, ds[1..])
  }

  /** b is the first dependency of a that cannot be initialised. */
  ghost predicate Blames(g: Graph, a: string, b: string) {
    a in g && FirstBad(g, g[a]) < |g[a]| && b == g[a][FirstBad(g, g[a])]
  }

  /** A bad name, its first bad dependency, the first bad dependency of that, and so on. */
  ghost predicate Trail(g: Graph, p: seq<string>) {
    && |p| > 0 && Bad(g, p[0])
    && forall i :: 0 <= i < |p| - 1 ==> Blames(g, p[i], p[i + 1])
  }

  lemma {:induction false} TrailWalks(g: Graph, p: seq<string>)
    requires Trail(g, p)
    ensures Walk(g, p)
    ensures !NoRepeats(p) ==> Cyclic(g, p[0])
    ensures p[|p| - 1] !in g ==> Missing(g, p[0])
  {
  }

  // A trail has no choice.
  lemma {:induction false} TrailsAgree(g: Graph, p: seq<string>, q: seq<string>, i: nat)
    requires Trail(g, p) && Trail(g, q) && p[0] == q[0] && i < |p| && i < |q|
    ensures p[i] == q[i]
  {
    if i > 0 {
      TrailsAgree(g, p, q, i - 1);
      assert Blames(g, p[i - 1], p[i - 1 + 1]) && Blames(g, q[i - 1], q[i - 1 + 1]);
    }
  }

  // One that ends at an unregistered name is the longest.
  lemma {:induction false} TrailEnds(g: Graph, p: seq<string>, q: seq<string>)
    requires Trail(g, p) && Trail(g, q) && p[0] == q[0] && p[|p| - 1] !in g
    ensures q <= p
  {
    if |q| > |p| {
      assert Blames(g, q[|p| - 1], q[|p| - 1 + 1]);
      TrailsAgree(g, p, q, |p| - 1);
      assert false;
    }
    forall i | 0 <= i < |q| ensures p[i] == q[i] {
      TrailsAgree(g, p, q, i);
    }
  }

  /** Whatever is jammed is bad. */
  ghost predicate OnlyBadJam(g: Graph, w: World) {
    forall a :: Jammed(w, a) ==> Bad(g, a)
  }

  lemma {:induction false} BadBackward(g: Graph, p: seq<string>)
    requires |p| > 0 && Walk(g, p) && Bad(g, p[|p| - 1])
    ensures Bad(g, p[0])
  {
    if |p| > 1 {
      assert Edge(g, p[0], p[0 + 1]);
      assert Walk(g, p[1..]) by {
        forall i | 0 <= i < |p[1..]| - 1 ensures Edge(g, p[1..][i], p[1..][i + 1]) {
          assert Edge(g, p[i + 1], p[i + 1 + 1]);
        }
      }
      BadBackward(g, p[1..]);
      BadBefore(g, p[0], p[1]);
    }
  }

  lemma {:induction false} GoodIsClear(g: Graph, w: World, s: string)
    requires OnlyBadJam(g, w) && !Bad(g, s)
    ensures Clear(g, w, s)
  {
    forall p | |p| > 0 && p[0] == s && Walk(g, p) ensures !Jammed(w, p[|p| - 1]) {
      if Jammed(w, p[|p| - 1]) {
        BadBackward(g, p);
      }
    }
  }

  ghost function AfterDependency(g: Graph, w: World, d: string, more: seq<string>): (Outcome, World)
    requires Fits(g, w)
  {
    var (o, w1) := Initialize(g, w, d);
    if o != Found then (o, w1)
    else if w1.states[d] == Initializing then (Fatal, w1)
    else InitializeAll(g, w1, more)
  }

  // A good dependency loads without leaving a trace in the jam.
  lemma {:induction false} GoodDependency(g: Graph, w: World, d: string)
    requires LogOk(g, w) && OnlyBadJam(g, w) && !Bad(g, d)
    ensures var (o, w') := Initialize(g, w, d);
            o == Found && LogOk(g, w') && OnlyBadJam(g, w') && SameJam(w, w') && !Jammed(w', d)
  {
    hide Bad, Initialize, NoRepeats, DependenciesFirst;
    GoodIsClear(g, w, d);
    GoodLoads(g, w, d);
    InitializeKeepsLog(g, w, d);
  }

  lemma {:induction false} UpToBad(g: Graph, w: World, ds: seq<string>) returns (w1: World)
    requires LogOk(g, w) && OnlyBadJam(g, w) && FirstBad(g, ds) < |ds|
    ensures LogOk(g, w1) && SameJam(w, w1) && Pending(w1) <= Pending(w)
    ensures var k := FirstBad(g, ds);
            InitializeAll(g, w, ds) == AfterDependency(g, w1, ds[k], ds[k + 1..])
    decreases |ds|
  {
    hide Bad, OnlyBadJam, NoRepeats, DependenciesFirst, Initialize, Ready;
    if Bad(g, ds[0]) {
      w1 := w;
    } else {
      GoodDependency(g, w, ds[0]);
      w1 := UpToBad(g, Initialize(g, w, ds[0]).1, ds[1..]);
      var k := FirstBad(g, ds);
      assert ds[1..][k - 1] == ds[k] && ds[1..][k..] == ds[k + 1..];
    }
  }

  /** How the call for a bad name ends: along its trail, at an unregistered name, leaving the
      trail jammed, or at an application already jammed, with the cycle report. */
  ghost predicate Ends(g: Graph, w: World, p: seq<string>, o: Outcome, w': World) {
    && Trail(g, p)
    && var last := p[|p| - 1];
       && NoRepeats(p[..|p| - 1]) && (forall a :: a in p[..|p| - 1] ==> !Jammed(w, a))
       && (last !in g ==> o == NotFound && forall a :: Jammed(w', a) <==> Jammed(w, a) || (a in p && a in g))
       && (last in g ==> o == Fatal && (last in p[..|p| - 1] || Jammed(w, last)))
  }

  lemma {:induction false} EndsUnregistered(g: Graph, w: World, s: string)
    requires s !in g && Bad(g, s)
    ensures Ends(g, w, [s], NotFound, w)
  {
  }

  lemma {:induction false} EndsJammed(g: Graph, w: World, s: string, d: string, w': World)
    requires Bad(g, s) && Blames(g, s, d) && d in g && !Jammed(w, s) && (Jammed(w, d) || d == s)
    ensures Ends(g, w, [s, d], Fatal, w')
  {
    assert [s, d][..1] == [s];
  }

  // The call for a bad registered name is the call for its first bad dependency.
  lemma {:induction false} BadStep(g: Graph, w: World, s: string) returns (d: string, w1: World)
    requires LogOk(g, w) && OnlyBadJam(g, w) && Bad(g, s) && !Jammed(w, s) && s in g
    ensures Blames(g, s, d) && Bad(g, d) && LogOk(g, w1) && Pending(w1) < Pending(w)
    ensures forall a :: Jammed(w1, a) <==> Jammed(w, a) || a == s
    ensures Jammed(w1, d) ==> Initialize(g, w, s) == (Fatal, w1)
    ensures Initialize(g, w1, d).0 != Found ==> Initialize(g, w, s) == Initialize(g, w1, d)
  {
    hide Bad, OnlyBadJam, NoRepeats, DependenciesFirst, Ready, FirstBad;
    NotLogged(g, w, s);
    var w0 := w.(states := w.states[s := Initializing]);
    assert s in Pending(w) && s !in Pending(w0);
    MarkKeeps(g, w, s);
    d := BadAfter(g, s);
    var k := FirstBad(g, g[s]);
    d := g[s][k];
    w1 := UpToBad(g, w0, g[s]);
    assert forall a :: Jammed(w1, a) <==> Jammed(w0, a);
  }

  lemma {:induction false} NotLogged(g: Graph, w: World, s: string)
    requires LogOk(g, w) && Bad(g, s) && !Jammed(w, s) && s in g
    ensures w.states[s] == Registered
  {
    if s in w.log {
      LoggedIsAcyclic(g, w.log, s);
    }
  }

  lemma {:induction false} MarkKeeps(g: Graph, w: World, s: string)
    requires LogOk(g, w) && OnlyBadJam(g, w) && Bad(g, s) && s in g && w.states[s] == Registered
    ensures var w0 := w.(states := w.states[s := Initializing]);
            LogOk(g, w0) && OnlyBadJam(g, w0)
  {
  }

  lemma {:induction false} BadLoads(g: Graph, w: World, s: string) returns (p: seq<string>)
    requires LogOk(g, w) && OnlyBadJam(g, w) && Bad(g, s) && !Jammed(w, s)
    ensures var (o, w') := Initialize(g, w, s);
            Ends(g, w, p, o, w') && p[0] == s
    decreases Pending(w)
  {
    hide Bad, Trail, Blames, NoRepeats, DependenciesFirst;
    if s !in g {
      EndsUnregistered(g, w, s);
      p := [s];
    } else {
      var d, w1 := BadStep(g, w, s);
      if Jammed(w1, d) {
        EndsJammed(g, w, s, d, w1);
        p := [s, d];
      } else {
        var p1 := BadLoads(g, w1, d);
        p := [s] + p1;
        Prepend(g, w, w1, s, p1, Initialize(g, w1, d).0, Initialize(g, w1, d).1);
      }
    }
  }

  lemma {:induction false} Prepend(g: Graph, w: World, w1: World, s: string, p: seq<string>, o: Outcome, w': World)
    requires Ends(g, w1, p, o, w') && Blames(g, s, p[0]) && Bad(g, s) && !Jammed(w, s)
    requires forall a :: Jammed(w1, a) <==> Jammed(w, a) || a == s
    ensures Ends(g, w, [s] + p, o, w')
  {
    var q := [s] + p;
    assert q[..|q| - 1] == [s] + p[..|p| - 1];
    assert q[|q| - 1] == p[|p| - 1];
    assert Trail(g, q);
  }

  // ---------------------------------------------------------------------------
  // How loading ends, exactly
  // ---------------------------------------------------------------------------

  /** a is on the trail of one of the services. */
  ghost predicate Blamed(g: Graph, ss: seq<string>, a: string) {
    exists p :: Trail(g, p) && p[0] in ss && p[|p| - 1] == a
  }

  /** After the services `done`: exactly the applications on their trails are jammed. */
  ghost predicate JamIs(g: Graph, w: World, done: seq<string>) {
    LogOk(g, w) && forall a :: a in g ==> (Jammed(w, a) <==> Blamed(g, done, a))
  }

  /** Some way along its trail the service comes back to where it has been, or meets the trail
      of an earlier service. A service on such a trail itself is passed over. */
  ghost predicate Clashes(g: Graph, done: seq<string>, s: string) {
    && !Blamed(g, done, s)
    && exists p :: && Trail(g, p) && p[0] == s && p[|p| - 1] in g
                   && (!NoRepeats(p) || Blamed(g, done, p[|p| - 1]))
  }

  lemma {:induction false} BlamedIsBad(g: Graph, done: seq<string>, a: string)
    requires Blamed(g, done, a)
    ensures Bad(g, a)
  {
    var p :| Trail(g, p) && p[0] in done && p[|p| - 1] == a;
    if |p| > 1 {
      assert Blames(g, p[|p| - 2], p[|p| - 2 + 1]);
    }
  }

  // From a blamed name the trail goes on over blamed names.
  lemma {:induction false} BlamedOn(g: Graph, done: seq<string>, p: seq<string>)
    requires Trail(g, p) && Blamed(g, done, p[0])
    ensures Blamed(g, done, p[|p| - 1])
  {
    var q :| Trail(g, q) && q[0] in done && q[|q| - 1] == p[0];
    var r := q + p[1..];
    assert r[|r| - 1] == p[|p| - 1];
    forall i | 0 <= i < |r| - 1 ensures Blames(g, r[i], r[i + 1]) {
      if i < |q| - 1 {
        assert Blames(g, q[i], q[i + 1]);
      } else {
        assert Blames(g, p[i - |q| + 1], p[i - |q| + 1 + 1]);
      }
    }
    assert Trail(g, r);
  }

  lemma {:induction false} BlamedGrows(g: Graph, done: seq<string>, s: string, a: string)
    ensures Blamed(g, done + [s], a) <==>
            Blamed(g, done, a) || exists p :: Trail(g, p) && p[0] == s && p[|p| - 1] == a
  {
    if p :| Trail(g, p) && p[0] == s && p[|p| - 1] == a {
      assert (done + [s])[|done|] == s;
    }
    if Blamed(g, done, a) {
      var p :| Trail(g, p) && p[0] in done && p[|p| - 1] == a;
      assert p[0] in done + [s];
    }
  }

  lemma {:induction false} NotFoundExactly(g: Graph, w: World, done: seq<string>, s: string, p: seq<string>, w': World)
    requires JamIs(g, w, done) && LogOk(g, w') && !Jammed(w, s)
    requires Ends(g, w, p, NotFound, w') && p[0] == s
    ensures !Clashes(g, done, s) && JamIs(g, w', done + [s]) && Missing(g, s)
  {
    hide Bad, Blames, Blamed, NoRepeats, DependenciesFirst;
    assert p[|p| - 1] !in g;
    TrailWalks(g, p);
    forall q | Trail(g, q) && q[0] == s && q[|q| - 1] in g
      ensures NoRepeats(q) && !Blamed(g, done, q[|q| - 1])
    {
      TrailEnds(g, p, q);
      NoRepeatsBefore(p, q);
      assert q[|q| - 1] in p[..|p| - 1];
    }
    forall a | a in g ensures Jammed(w', a) <==> Blamed(g, done + [s], a) {
      BlamedGrows(g, done, s, a);
      OnTrail(g, p, a);
    }
  }

  lemma {:induction false} NoRepeatsBefore(p: seq<string>, q: seq<string>)
    requires 0 < |q| && q <= p && p[|p| - 1] != q[|q| - 1] && NoRepeats(p[..|p| - 1])
    ensures NoRepeats(q) && q[|q| - 1] in p[..|p| - 1]
  {
    assert q != p;
    assert q == p[..|p| - 1][..|q|];
  }

  lemma {:induction false} OnTrail(g: Graph, p: seq<string>, a: string)
    requires Trail(g, p) && p[|p| - 1] !in g
    ensures a in p <==> exists q :: Trail(g, q) && q[0] == p[0] && q[|q| - 1] == a
  {
    if a in p {
      var i :| 0 <= i < |p| && p[i] == a;
      var q := p[..i + 1];
      assert Trail(g, q) && q[|q| - 1] == a;
    }
    if q :| Trail(g, q) && q[0] == p[0] && q[|q| - 1] == a {
      TrailEnds(g, p, q);
    }
  }

  // A trail that comes back to where it has been cannot lead out.
  lemma {:induction false} FatalExactly(g: Graph, w: World, done: seq<string>, s: string, p: seq<string>, w': World)
    requires JamIs(g, w, done) && !Jammed(w, s)
    requires Ends(g, w, p, Fatal, w') && p[0] == s
    ensures Clashes(g, done, s)
  {
    var last := p[|p| - 1];
    assert last in g;
    TrailWalks(g, p);
    assert !Blamed(g, done, s) by {
      assert s in g by {
        if |p| > 1 {
          assert Blames(g, p[0], p[0 + 1]);
        }
      }
    }
    if last in p[..|p| - 1] {
      var i :| 0 <= i < |p| - 1 && p[..|p| - 1][i] == last;
      assert p[i] == p[|p| - 1];
      assert !NoRepeats(p);
    }
  }

  /** One top-level call, in any world that earlier services left behind. It ends in the cycle
      report exactly if the service clashes; otherwise the service is initialised iff its
      closure is acyclic and complete, and exactly its trail is left jammed. */
  lemma {:induction false} TopLevel(g: Graph, w: World, done: seq<string>, s: string)
    requires JamIs(g, w, done)
    ensures var (o, w') := Initialize(g, w, s);
            && (o == Fatal <==> Clashes(g, done, s))
            && (o == NotFound ==> Missing(g, s))
            && (o == Found ==> !Bad(g, s) || Blamed(g, done, s))
            && (o != Fatal ==> JamIs(g, w', done + [s]) && (s in w'.log <==> !Cyclic(g, s) && !Missing(g, s)))
            && w.log <= w'.log
  {
    var (o, w') := Initialize(g, w, s);
    InitializeKeepsLog(g, w, s);
    JamIsBad(g, w, done);
    if s in w'.log {
      LoggedIsAcyclic(g, w'.log, s);
    }
    if !Bad(g, s) {
      GoodIsClear(g, w, s);
      GoodLoads(g, w, s);
      GoodService(g, w, done, s, w');
    } else if Jammed(w, s) {
      JammedService(g, w, done, s);
    } else {
      var p := BadLoads(g, w, s);
      if p[|p| - 1] in g {
        FatalExactly(g, w, done, s, p, w');
      } else {
        NotFoundExactly(g, w, done, s, p, w');
      }
    }
  }

  lemma {:induction false} JamIsBad(g: Graph, w: World, done: seq<string>)
    requires JamIs(g, w, done)
    ensures OnlyBadJam(g, w)
  {
    forall a | Jammed(w, a) ensures Bad(g, a) {
      BlamedIsBad(g, done, a);
    }
  }

  lemma {:induction false} GoodService(g: Graph, w: World, done: seq<string>, s: string, w': World)
    requires JamIs(g, w, done) && !Bad(g, s) && LogOk(g, w') && SameJam(w, w')
    ensures !Clashes(g, done, s) && JamIs(g, w', done + [s])
  {
    forall a | a in g ensures Jammed(w', a) <==> Blamed(g, done + [s], a) {
      BlamedGrows(g, done, s, a);
    }
  }

  lemma {:induction false} JammedService(g: Graph, w: World, done: seq<string>, s: string)
    requires JamIs(g, w, done) && Jammed(w, s)
    ensures Blamed(g, done, s) && !Clashes(g, done, s) && JamIs(g, w, done + [s])
  {
    forall a | a in g ensures Jammed(w, a) <==> Blamed(g, done + [s], a) {
      BlamedGrows(g, done, s, a);
      if p :| Trail(g, p) && p[0] == s && p[|p| - 1] == a {
        BlamedOn(g, done, p);
      }
    }
  }

  /** Some service clashes with those before it. */
  ghost predicate SomeClash(g: Graph, done: seq<string>, ss: seq<string>) {
    exists j :: 0 <= j < |ss| && Clashes(g, done + ss[..j], ss[j])
  }

  lemma {:induction false} ClashLater(g: Graph, done: seq<string>, ss: seq<string>)
    requires ss != []
    ensures SomeClash(g, done, ss) <==> Clashes(g, done, ss[0]) || SomeClash(g, done + [ss[0]], ss[1..])
  {
    hide Clashes;
    var more := ss[1..];
    assert done + ss[..0] == done;
    forall j | 0 < j < |ss| ensures done + ss[..j] == done + [ss[0]] + more[..j - 1] && ss[j] == more[j - 1] {}
    if j :| 0 <= j < |more| && Clashes(g, done + [ss[0]] + more[..j], more[j]) {
      assert done + ss[..j + 1] == done + [ss[0]] + more[..j];
      assert Clashes(g, done + ss[..j + 1], ss[j + 1]);
    }
    if j :| 0 <= j < |ss| && Clashes(g, done + ss[..j], ss[j]) {
      if j > 0 {
        assert Clashes(g, done + [ss[0]] + more[..j - 1], more[j - 1]);
      }
    }
  }

  /** The services in turn, whatever the configuration: loading ends in the cycle report
      exactly if some service clashes with those before it, and otherwise each service is
      initialised iff its own closure is acyclic and complete. */
  lemma {:induction false} LoadingExactly(g: Graph, w: World, done: seq<string>, ss: seq<string>)
    requires JamIs(g, w, done)
    ensures var (o, w') := Services(g, w, ss);
            && (o == Fatal <==> SomeClash(g, done, ss))
            && (o != Fatal ==> o == Found && forall s :: s in ss ==> (s in w'.log <==> !Cyclic(g, s) && !Missing(g, s)))
            && LogOk(g, w') && w.log <= w'.log
    decreases |ss|
  {
    hide Initialize, Clashes, SomeClash, Cyclic, Missing, Blamed;
    if ss == [] {
      NoServices(g, done);
    } else {
      TopLevel(g, w, done, ss[0]);
      InitializeKeepsLog(g, w, ss[0]);
      ClashLater(g, done, ss);
      LoadingOrder(g, w, ss);
      var (o1, w1) := Initialize(g, w, ss[0]);
      if o1 != Fatal {
        LoadingExactly(g, w1, done + [ss[0]], ss[1..]);
        var (o, w') := Services(g, w, ss);
        if ss[0] in w'.log {
          LoggedIsAcyclic(g, w'.log, ss[0]);
        }
        assert ss == [ss[0]] + ss[1..];
      }
    }
  }

  lemma {:induction false} NoServices(g: Graph, done: seq<string>)
    ensures !SomeClash(g, done, [])
  {
  }

  lemma {:induction false} FreshIsClear(g: Graph)
    ensures JamIs(g, Fresh(g), [])
  {
  }

  /** When every name in the closures of the services is registered, loading succeeds, with
      all services initialised, iff no service depends on a cycle; otherwise it ends in the
      cycle report. */
  lemma {:induction false} LoadingSucceeds(g: Graph, ss: seq<string>)
    requires forall s :: s in ss ==> !Missing(g, s)
    ensures var (o, w') := Services(g, Fresh(g), ss);
            && (o == Found <==> forall s :: s in ss ==> !Cyclic(g, s))
            && (o == Fatal <==> exists s :: s in ss && Cyclic(g, s))
            && (o == Found ==> forall s :: s in ss ==> s in w'.log)
  {
    FreshIsClear(g);
    LoadingExactly(g, Fresh(g), [], ss);
    CompleteServices(g, Fresh(g), [], ss);
  }

  lemma {:induction false} GoodBlameNobody(g: Graph, done: seq<string>)
    requires forall s :: s in done ==> !Bad(g, s)
    ensures forall a :: !Blamed(g, done, a)
  {
  }

  lemma {:induction false} ClashIsBad(g: Graph, done: seq<string>, s: string)
    requires Clashes(g, done, s)
    ensures Bad(g, s)
  {
  }

  lemma {:induction false} CompleteServices(g: Graph, w: World, done: seq<string>, ss: seq<string>)
    requires JamIs(g, w, done) && (forall s :: s in done ==> !Bad(g, s))
    requires forall s :: s in ss ==> !Missing(g, s)
    ensures Services(g, w, ss).0 == Fatal <==> exists s :: s in ss && Cyclic(g, s)
    decreases |ss|
  {
    hide Initialize, Clashes, Cyclic, Missing, Blamed, JamIs;
    if ss != [] {
      assert Fits(g, w) by { JamFits(g, w, done); }
      TopLevel(g, w, done, ss[0]);
      assert ss[0] in ss && ss == [ss[0]] + ss[1..];
      GoodBlameNobody(g, done);
      if Initialize(g, w, ss[0]).0 == Fatal {
        ClashIsBad(g, done, ss[0]);
      } else {
        CompleteServices(g, Initialize(g, w, ss[0]).1, done + [ss[0]], ss[1..]);
      }
    }
  }

  lemma {:induction false} JamFits(g: Graph, w: World, done: seq<string>)
    requires JamIs(g, w, done)
    ensures Fits(g, w)
  {
  }

  /** The service meets the trail of an earlier one in a registered application. */
  ghost predicate Meets(g: Graph, done: seq<string>, s: string) {
    && !Blamed(g, done, s)
    && exists p :: Trail(g, p) && p[0] == s && p[|p| - 1] in g && Blamed(g, done, p[|p| - 1])
  }

  /** Without any cycle, the cycle report comes, falsely, exactly if a service that is not on
      the trail of an earlier one meets such a trail in a registered application. */
  lemma {:induction false} FalseReportExactly(g: Graph, ss: seq<string>)
    requires forall s :: s in ss ==> !Cyclic(g, s)
    ensures Services(g, Fresh(g), ss).0 == Fatal <==> exists j :: 0 <= j < |ss| && Meets(g, ss[..j], ss[j])
  {
    hide Clashes, Meets, Cyclic;
    FreshIsClear(g);
    LoadingExactly(g, Fresh(g), [], ss);
    forall j | 0 <= j < |ss| ensures Clashes(g, [] + ss[..j], ss[j]) <==> Meets(g, ss[..j], ss[j]) {
      assert [] + ss[..j] == ss[..j];
      ClashesMeets(g, ss[..j], ss[j]);
    }
  }

  lemma {:induction false} ClashesMeets(g: Graph, done: seq<string>, s: string)
    requires !Cyclic(g, s)
    ensures Clashes(g, done, s) <==> Meets(g, done, s)
  {
    forall p | Trail(g, p) && p[0] == s ensures NoRepeats(p) {
      TrailWalks(g, p);
    }
  }

  // ---------------------------------------------------------------------------
  // Nothing else is initialised
  // ---------------------------------------------------------------------------

  /** Some walk leads from s to a. */
  ghost predicate Reaches(g: Graph, s: string, a: string) {
    exists p :: |p| > 0 && p[0] == s && p[|p| - 1] == a && Walk(g, p)
  }

  ghost predicate ReachedFrom(g: Graph, ss: seq<string>, a: string) {
    exists i :: 0 <= i < |ss| && Reaches(g, ss[i], a)
  }

  lemma {:induction false} ReachesItself(g: Graph, s: string)
    ensures Reaches(g, s, s)
  {
    assert Walk(g, [s]);
  }

  lemma {:induction false} ReachesOn(g: Graph, s: string, d: string, a: string)
    requires Edge(g, s, d) && Reaches(g, d, a)
    ensures Reaches(g, s, a)
  {
    var p :| |p| > 0 && p[0] == d && p[|p| - 1] == a && Walk(g, p);
    var q := [s] + p;
    assert Walk(g, q) && q[|q| - 1] == a;
  }

  lemma {:induction false} InitializeReaches(g: Graph, w: World, s: string, a: string)
    requires Fits(g, w) && a in Initialize(g, w, s).1.log
    ensures a in w.log || Reaches(g, s, a)
    decreases Pending(w), 0
  {
    hide Reaches;
    if s in g && w.states[s] == Registered {
      var w0 := w.(states := w.states[s := Initializing]);
      assert s in Pending(w) && s !in Pending(w0);
      ReachesItself(g, s);
      if a in InitializeAll(g, w0, g[s]).1.log {
        InitializeAllReaches(g, w0, g[s], a);
        if a !in w.log {
          var i :| 0 <= i < |g[s]| && Reaches(g, g[s][i], a);
          ReachesOn(g, s, g[s][i], a);
        }
      }
    }
  }

  lemma {:induction false} InitializeAllReaches(g: Graph, w: World, ds: seq<string>, a: string)
    requires Fits(g, w) && a in InitializeAll(g, w, ds).1.log
    ensures a in w.log || ReachedFrom(g, ds, a)
    decreases Pending(w), |ds| + 1
  {
    hide Reaches;
    if ds != [] {
      var w1 := Initialize(g, w, ds[0]).1;
      if a in w1.log {
        InitializeReaches(g, w, ds[0], a);
      } else {
        InitializeAllReaches(g, w1, ds[1..], a);
        var i :| 0 <= i < |ds[1..]| && Reaches(g, ds[1..][i], a);
        assert ds[i + 1] == ds[1..][i];
      }
    }
  }

  /** However loading ends, only what some service reaches is initialised. */
  lemma {:induction false} OnlyReached(g: Graph, w: World, ss: seq<string>, a: string)
    requires Fits(g, w) && a in Services(g, w, ss).1.log
    ensures a in w.log || ReachedFrom(g, ss, a)
    decreases |ss|
  {
    hide Reaches;
    if ss != [] {
      var w1 := Initialize(g, w, ss[0]).1;
      if a in w1.log {
        InitializeReaches(g, w, ss[0], a);
      } else {
        OnlyReached(g, w1, ss[1..], a);
        var i :| 0 <= i < |ss[1..]| && Reaches(g, ss[1..][i], a);
        assert ss[i + 1] == ss[1..][i];
      }
    }
  }

  ghost predicate Ranked(g: Graph, rank: string -> nat) {
    forall a, b :: Edge(g, a, b) ==> rank(b) < rank(a)
  }

  lemma {:induction false} RankFalls(g: Graph, rank: string -> nat, p: seq<string>, i: nat, j: nat)
    requires Ranked(g, rank) && Walk(g, p) && i < j < |p|
    ensures rank(p[j]) < rank(p[i])
    decreases j
  {
    assert Edge(g, p[j - 1], p[j - 1 + 1]);
    if i < j - 1 {
      RankFalls(g, rank, p, i, j - 1);
    }
  }

  lemma {:induction false} RankedIsAcyclic(g: Graph, rank: string -> nat)
    requires Ranked(g, rank)
    ensures forall s :: !Cyclic(g, s)
  {
    forall p: seq<string> | Walk(g, p) ensures NoRepeats(p) {
      forall i, j | 0 <= i < j < |p| ensures p[i] != p[j] {
        RankFalls(g, rank, p, i, j);
      }
    }
  }

  /** A name nobody registered can make a later, acyclic service end in the cycle report:
      the half-initialised applications it leaves behind look like a call stack. */
  lemma {:induction false} FalseCycleReport()
    ensures exists g: Graph, ss: seq<string> ::
              && (forall s :: s in ss ==> !Cyclic(g, s))
              && Services(g, Fresh(g), ss).0 == Fatal
  {
    hide Cyclic;
    var g: Graph := map["a" := ["gone"], "b" := ["a"]];
    var w := Fresh(g);
    assert Initialize(g, w.(states := w.states["a" := Initializing]), "gone").0 == NotFound;
    var w1 := w.(states := w.states["a" := Initializing]);
    assert InitializeAll(g, w1, ["gone"]) == (NotFound, w1);
    assert Initialize(g, w, "a") == (NotFound, w1);
    var w2 := w1.(states := w1.states["b" := Initializing]);
    assert Initialize(g, w2, "a") == (Found, w2);
    assert InitializeAll(g, w2, ["a"]) == (Fatal, w2);
    assert Initialize(g, w1, "b") == (Fatal, w2);
    var ss := ["a", "b"];
    assert ss[1..] == ["b"];
    assert Services(g, w1, ["b"]).0 == Fatal;
    RankedIsAcyclic(g, x => if x == "b" then 2 else if x == "a" then 1 else 0);
    assert Initialize(g, w, ss[0]) == (NotFound, w1);
    assert Services(g, w, ss) == Services(g, w1, ss[1..]);
    assert Services(g, Fresh(g), ss).0 == Fatal;
  }

  // ---------------------------------------------------------------------------
  // The loader object
  // ---------------------------------------------------------------------------

  class LoaderImpl {
    const deps: Graph
    var apps: map<string, AppState>
    var log: seq<string>

    constructor (deps: Graph)
      ensures this.deps == deps && View() == Fresh(deps)
    {
      this.deps := deps;
      apps := map a | a in deps :: Registered;
      log := [];
    }

    ghost function View(): World
      reads this
    {
      World(apps, log)
    }

    method Load(service: string) returns (o: Outcome)
      requires Fits(deps, View())
      modifies this
      ensures (o, View()) == Initialize(deps, old(View()), service)
      decreases Pending(View())
    {
      if service !in apps {
        return NotFound;
      }
      if apps[service] != Registered {
        return Found;
      }
      assert service in Pending(View());
      apps := apps[service := Initializing];
      ghost var w0 := View();
      assert service !in Pending(w0);
      var dependsOn := deps[service];
      for i := 0 to |dependsOn|
        invariant Fits(deps, View()) && Pending(View()) <= Pending(w0)
        invariant InitializeAll(deps, View(), dependsOn[i..]) == InitializeAll(deps, w0, dependsOn)
      {
        assert dependsOn[i..][0] == dependsOn[i] && dependsOn[i..][1..] == dependsOn[i + 1..];
        o := Load(dependsOn[i]);
        if o != Found {
          return;
        }
        if apps[dependsOn[i]] == Initializing {
          return Fatal;
        }
      }
      log := log + [service];
      apps := apps[service := Initialized];
      o := Found;
    }

    /** Initialise the services, then start whatever is initialised: a service is started iff
        its closure is acyclic and complete, unless some service clashes with those before it
        and the process ends. */
    method StartAll(services: seq<string>) returns (o: Outcome)
      requires View() == Fresh(deps)
      modifies this
      ensures o == if SomeClash(deps, [], services) then Fatal else Found
      ensures log == Services(deps, Fresh(deps), services).1.log
      ensures NoRepeats(log) && DependenciesFirst(deps, log)
      ensures o == Found ==> apps.Keys == deps.Keys && forall a :: a in deps ==> (apps[a] == Started <==> a in log)
      ensures forall a :: a in log ==> ReachedFrom(deps, services, a)
      ensures o == Found ==> forall s :: s in services ==> (s in log <==> !Cyclic(deps, s) && !Missing(deps, s))
    {
      hide Cyclic, Missing, SomeClash, ReachedFrom;
      ghost var w := Fresh(deps);
      FreshIsClear(deps);
      LoadingExactly(deps, w, [], services);
      forall a | a in Services(deps, w, services).1.log ensures ReachedFrom(deps, services, a) {
        OnlyReached(deps, w, services, a);
      }
      for i := 0 to |services|
        invariant Fits(deps, View())
        invariant Services(deps, View(), services[i..]) == Services(deps, w, services)
        invariant LogOk(deps, View()) && (forall a :: a in deps ==> apps[a] != Started)
      {
        assert services[i..][0] == services[i] && services[i..][1..] == services[i + 1..];
        InitializeKeepsLog(deps, View(), services[i]);
        InitializeStartsNothing(deps, View(), services[i]);
        o := Load(services[i]);
        if o == Fatal {
          return;
        }
      }
      apps := map a | a in apps :: if apps[a] == Initialized then Started else apps[a];
      o := Found;
    }
  }

  lemma {:induction false} InitializeStartsNothing(g: Graph, w: World, s: string)
    requires Fits(g, w) && forall a :: a in g ==> w.states[a] != Started
    ensures forall a :: a in g ==> Initialize(g, w, s).1.states[a] != Started
    decreases Pending(w), 0
  {
    if s in g && w.states[s] == Registered {
      var w0 := w.(states := w.states[s := Initializing]);
      assert s in Pending(w) && s !in Pending(w0);
      InitializeAllStartsNothing(g, w0, g[s]);
    }
  }

  lemma {:induction false} InitializeAllStartsNothing(g: Graph, w: World, ds: seq<string>)
    requires Fits(g, w) && forall a :: a in g ==> w.states[a] != Started
    ensures forall a :: a in g ==> InitializeAll(g, w, ds).1.states[a] != Started
    decreases Pending(w), |ds| + 1
  {
    if ds != [] {
      InitializeStartsNothing(g, w, ds[0]);
      InitializeAllStartsNothing(g, Initialize(g, w, ds[0]).1, ds[1..]);
    }
  }
}
