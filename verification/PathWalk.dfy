/** Building a route from a shortest-path tree (computePath and inExPath in
    src/core/Topology.cc).  Dijkstra's algorithm is a library: what it must deliver is the
    predicate `Tree`. */
module PathWalk {

  datatype Port = Port(dpid: nat, port: nat)

  datatype Metrics = Hop | PortSpeed | PortLoading | Manual | NoMetrics

  // An undirected link between vertices a and b, whose ports are source (on a) and target.
  datatype Edge = Edge(a: nat, b: nat, source: Port, target: Port, hop: nat, ps: nat, pl: nat)

  // Vertices are numbered; dpid[v] is the switch a vertex was made for, and vertexOf is the
  // current vertex of a switch. A switch that left and came back has an older vertex too.
  datatype Graph = Graph(dpid: seq<nat>, edges: seq<Edge>, vertexOf: map<nat, nat>)

  datatype Dist = Infinite | Fin(value: nat)

  function Weight(e: Edge, mf: Metrics): nat {
    match mf
    case Hop => e.hop
    case PortSpeed => e.ps
    case PortLoading => e.pl
    case _ => 0
  }

  predicate Joins(e: Edge, u: nat, v: nat) {
    (e.a == u && e.b == v) || (e.a == v && e.b == u)
  }

  /** Links carry the ports of the switches they join; loopback links are never added. */
  ghost predicate WellFormed(g: Graph) {
    && (forall e :: e in g.edges ==>
          && e.a < |g.dpid| && e.b < |g.dpid| && g.dpid[e.a] != g.dpid[e.b]
          && e.source.dpid == g.dpid[e.a] && e.target.dpid == g.dpid[e.b])
    && (forall s :: s in g.vertexOf ==> g.vertexOf[s] < |g.dpid| && g.dpid[g.vertexOf[s]] == s)
  }

  ghost predicate Positive(g: Graph, mf: Metrics) {
    forall e :: e in g.edges ==> Weight(e, mf) >= 1
  }

  // The edge (v, u) by which a shortest path leaves v.
  ghost predicate Tight(g: Graph, mf: Metrics, d: seq<Dist>, e: Edge, v: nat, u: nat)
    requires v < |d| && u < |d|
  {
    e in g.edges && Joins(e, v, u) && d[u].Fin? && d[v] == Fin(d[u].value + Weight(e, mf))
  }

  /** What Dijkstra delivers for target t: distances no edge can improve, and for every other
      vertex its predecessor on a shortest path, or itself if there is none. */
  ghost predicate Tree(g: Graph, mf: Metrics, t: nat, p: seq<nat>, d: seq<Dist>) {
    && |p| == |d| == |g.dpid| && t < |d| && d[t] == Fin(0)
    && (forall v {:trigger p[v]} :: 0 <= v < |d| && d[v] == Infinite ==> p[v] == v)
    && (forall v {:trigger p[v]} :: 0 <= v < |d| && v != t && d[v].Fin? ==>
          p[v] < |d| && exists e :: Tight(g, mf, d, e, v, p[v]))
    && (forall e, u, v {:trigger Joins(e, u, v)} ::
          0 <= u < |d| && 0 <= v < |d| && e in g.edges && Joins(e, u, v) && d[v].Fin? ==>
          d[u].Fin? && d[u].value <= d[v].value + Weight(e, mf))
  }

  // ---------------------------------------------------------------------------
  // Walks
  // ---------------------------------------------------------------------------

  /** The edges es lead through the vertices vs. */
  ghost predicate Walk(g: Graph, vs: seq<nat>, es: seq<Edge>) {
    && |vs| == |es| + 1
    && (forall i :: 0 <= i < |vs| ==> vs[i] < |g.dpid|)
    && (forall i :: 0 <= i < |es| ==> es[i] in g.edges && Joins(es[i], vs[i], vs[i + 1]))
  }

  ghost function Total(es: seq<Edge>, mf: Metrics): nat {
    if es == [] then 0 else Total(es[..|es| - 1], mf) + Weight(es[|es| - 1], mf)
  }

  ghost function Sum(ns: seq<nat>): nat {
    if ns == [] then 0 else Sum(ns[..|ns| - 1]) + ns[|ns| - 1]
  }

  /** What a walk weighs is the sum of its links' hop, port speed or port loading metrics, as asked. */
  lemma {:induction false} TotalIsSum(es: seq<Edge>)
    ensures Total(es, Hop) == Sum(seq(|es|, i requires 0 <= i < |es| => es[i].hop))
    ensures Total(es, PortSpeed) == Sum(seq(|es|, i requires 0 <= i < |es| => es[i].ps))
    ensures Total(es, PortLoading) == Sum(seq(|es|, i requires 0 <= i < |es| => es[i].pl))
  {
    if es != [] {
      var n := |es| - 1;
      var fs := es[..n];
      TotalIsSum(fs);
      assert seq(|es|, i requires 0 <= i < |es| => es[i].hop)[..n] == seq(n, i requires 0 <= i < n => fs[i].hop);
      assert seq(|es|, i requires 0 <= i < |es| => es[i].ps)[..n] == seq(n, i requires 0 <= i < n => fs[i].ps);
      assert seq(|es|, i requires 0 <= i < |es| => es[i].pl)[..n] == seq(n, i requires 0 <= i < n => fs[i].pl);
    }
  }

  lemma {:induction false} HopsCount(es: seq<Edge>)
    requires forall e :: e in es ==> e.hop == 1
    ensures Total(es, Hop) == |es|
  {
    if es != [] {
      HopsCount(es[..|es| - 1]);
      assert es[|es| - 1] in es;
    }
  }

  /** With unit hop metrics, a shortest walk by hops has the fewest links of all. */
  lemma {:induction false} FewestLinks(g: Graph, vs: seq<nat>, es: seq<Edge>, ws: seq<nat>, fs: seq<Edge>)
    requires Shortest(g, Hop, vs, es) && Walk(g, ws, fs) && ws[0] == vs[0] && ws[|fs|] == vs[|es|]
    requires forall e :: e in g.edges ==> e.hop == 1
    ensures |es| <= |fs|
  {
    HopsCount(es);
    HopsCount(fs);
  }

  function PortOn(e: Edge, v: nat): Port {
    if e.a == v then e.source else e.target
  }

  /** The port list of a walk: for each hop the port it leaves by and the one it arrives at. */
  ghost function Ports(vs: seq<nat>, es: seq<Edge>): seq<Port>
    requires |vs| == |es| + 1
  {
    if es == [] then []
    else
      var n := |es| - 1;
      Ports(vs[..n + 1], es[..n]) + [PortOn(es[n], vs[n]), PortOn(es[n], vs[n + 1])]
  }

  // No parallel edge of any hop is lighter.
  ghost predicate Lightest(g: Graph, vs: seq<nat>, es: seq<Edge>, mf: Metrics)
    requires |vs| == |es| + 1
  {
    forall i, e :: 0 <= i < |es| && e in g.edges && Joins(e, vs[i], vs[i + 1]) ==> Weight(es[i], mf) <= Weight(e, mf)
  }

  lemma {:induction false} PortsGrow(vs: seq<nat>, es: seq<Edge>, e: Edge, u: nat)
    requires |vs| == |es| + 1
    ensures Ports(vs + [u], es + [e]) == Ports(vs, es) + [PortOn(e, vs[|es|]), PortOn(e, u)]
  {
    var n := |es|;
    assert (es + [e])[..n] == es && (vs + [u])[..n + 1] == vs;
  }

  lemma {:induction false} WalkGrows(g: Graph, vs: seq<nat>, es: seq<Edge>, e: Edge, u: nat, mf: Metrics)
    requires Walk(g, vs, es) && e in g.edges && Joins(e, vs[|es|], u) && u < |g.dpid|
    ensures Walk(g, vs + [u], es + [e])
    ensures Total(es + [e], mf) == Total(es, mf) + Weight(e, mf)
    ensures Lightest(g, vs, es, mf)
            && (forall x :: x in g.edges && Joins(x, vs[|es|], u) ==> Weight(e, mf) <= Weight(x, mf))
            ==> Lightest(g, vs + [u], es + [e], mf)
  {
    assert (es + [e])[..|es|] == es;
  }

  /** A walk over lightest parallel links that no walk between the same ends undercuts. */
  ghost predicate Shortest(g: Graph, mf: Metrics, vs: seq<nat>, es: seq<Edge>) {
    && Walk(g, vs, es) && Lightest(g, vs, es, mf)
    && forall ws, fs {:trigger Walk(g, ws, fs)} ::
         Walk(g, ws, fs) && ws[0] == vs[0] && ws[|fs|] == vs[|es|] ==> Total(es, mf) <= Total(fs, mf)
  }

  ghost predicate Connected(g: Graph, u: nat, v: nat) {
    exists ws, fs :: Walk(g, ws, fs) && ws[0] == u && ws[|fs|] == v
  }

  // Hop i leaves the switch of vs[i] and arrives at that of vs[i + 1].
  ghost predicate HopPorts(g: Graph, vs: seq<nat>, ports: seq<Port>, i: nat)
    requires i + 1 < |vs| && 2 * i + 1 < |ports| && vs[i] < |g.dpid| && vs[i + 1] < |g.dpid|
  {
    ports[2 * i].dpid == g.dpid[vs[i]] && ports[2 * i + 1].dpid == g.dpid[vs[i + 1]]
  }

  /** The port list alternates: it leaves each switch it has arrived at. */
  lemma {:induction false} PortsSpec(g: Graph, vs: seq<nat>, es: seq<Edge>)
    requires WellFormed(g) && Walk(g, vs, es)
    ensures |Ports(vs, es)| == 2 * |es|
    ensures forall i :: 0 <= i < |es| ==> HopPorts(g, vs, Ports(vs, es), i)
  {
    if es != [] {
      var n := |es| - 1;
      var ws, fs := vs[..n + 1], es[..n];
      PortsSpec(g, ws, fs);
      var ports := Ports(vs, es);
      assert ports == Ports(ws, fs) + [PortOn(es[n], vs[n]), PortOn(es[n], vs[n + 1])];
      assert es[n] in g.edges && Joins(es[n], vs[n], vs[n + 1]);
      assert HopPorts(g, vs, ports, n);
      forall i | 0 <= i < n ensures HopPorts(g, vs, ports, i) {
        assert HopPorts(g, ws, Ports(ws, fs), i);
      }
    }
  }

  /** No walk to the target weighs less than the distance. */
  lemma {:induction false} WalkBound(g: Graph, mf: Metrics, t: nat, p: seq<nat>, d: seq<Dist>, vs: seq<nat>, es: seq<Edge>)
    requires Tree(g, mf, t, p, d) && Walk(g, vs, es) && d[vs[|es|]].Fin?
    ensures d[vs[0]].Fin? && d[vs[0]].value <= Total(es, mf) + d[vs[|es|]].value
  {
    if es != [] {
      var n := |es| - 1;
      assert es[n] in g.edges && Joins(es[n], vs[n], vs[n + 1]);
      WalkBound(g, mf, t, p, d, vs[..n + 1], es[..n]);
    }
  }

  // ---------------------------------------------------------------------------
  // computePath
  // ---------------------------------------------------------------------------

  /** Some lightest edge between v and u, if there is one. */
  method PickEdge(g: Graph, v: nat, u: nat, mf: Metrics) returns (best: nat, chosen: Edge)
    requires Positive(g, mf)
    ensures best == 0 <==> forall e :: e in g.edges ==> !Joins(e, v, u)
    ensures best != 0 ==> chosen in g.edges && Joins(chosen, v, u) && best == Weight(chosen, mf)
    ensures best != 0 ==> forall e :: e in g.edges && Joins(e, v, u) ==> best <= Weight(e, mf)
  {
    best := 0;
    chosen := Edge(0, 0, Port(0, 0), Port(0, 0), 0, 0, 0);
    for i := 0 to |g.edges|
      invariant best == 0 <==> forall j :: 0 <= j < i ==> !Joins(g.edges[j], v, u)
      invariant best != 0 ==> chosen in g.edges && Joins(chosen, v, u) && best == Weight(chosen, mf)
      invariant best != 0 ==> forall j :: 0 <= j < i && Joins(g.edges[j], v, u) ==> best <= Weight(g.edges[j], mf)
    {
      var link := g.edges[i];
      if Joins(link, v, u) {
        var curr := Weight(link, mf);
        assert link in g.edges;
        if best == 0 || best > curr {
          best := curr;
          chosen := link;
        }
      }
    }
  }

  // A lightest edge to the predecessor is a shortest way on.
  lemma {:induction false} NextHop(g: Graph, mf: Metrics, t: nat, p: seq<nat>, d: seq<Dist>, v: nat, link: Edge)
    requires WellFormed(g) && Tree(g, mf, t, p, d) && v < |d| && v != t
    requires link in g.edges && Joins(link, v, p[v])
    requires forall e :: e in g.edges && Joins(e, v, p[v]) ==> Weight(link, mf) <= Weight(e, mf)
    ensures d[v].Fin? && p[v] < |d| && d[p[v]].Fin? && d[v].value == d[p[v]].value + Weight(link, mf)
    ensures if link.source.dpid == g.dpid[v]
            then PortOn(link, v) == link.source && PortOn(link, p[v]) == link.target && link.target.dpid == g.dpid[p[v]]
            else PortOn(link, v) == link.target && PortOn(link, p[v]) == link.source && link.source.dpid == g.dpid[p[v]]
  {
    assert g.dpid[link.a] != g.dpid[link.b];
    var x :| Tight(g, mf, d, x, v, p[v]);
  }

  // Only a vertex with no way to the target has no edge to its predecessor.
  lemma {:induction false} NoHop(g: Graph, mf: Metrics, t: nat, p: seq<nat>, d: seq<Dist>, v: nat)
    requires Tree(g, mf, t, p, d) && v < |d| && v != t
    requires forall e :: e in g.edges ==> !Joins(e, v, p[v])
    ensures d[v] == Infinite
  {
    var u := p[v];
    assert d[v].Fin? ==> u < |d| && exists e :: Tight(g, mf, d, e, v, u);
  }

  // How far the walk has come: from start to v, with the rest of the distance to go.
  ghost predicate Progress(g: Graph, mf: Metrics, d: seq<Dist>, start: nat, v: nat, vs: seq<nat>, es: seq<Edge>) {
    && Walk(g, vs, es) && Lightest(g, vs, es, mf) && vs[0] == start && vs[|es|] == v
    && start < |d| && v < |d|
    && (if d[v].Fin? then d[start] == Fin(Total(es, mf) + d[v].value) else d[start] == Infinite && es == [])
  }

  lemma {:induction false} HopAdvances(g: Graph, mf: Metrics, t: nat, p: seq<nat>, d: seq<Dist>,
                                       start: nat, v: nat, vs: seq<nat>, es: seq<Edge>, link: Edge)
    requires WellFormed(g) && Tree(g, mf, t, p, d) && v < |d| && v != t && Progress(g, mf, d, start, v, vs, es)
    requires link in g.edges && Joins(link, v, p[v])
    requires forall e :: e in g.edges && Joins(e, v, p[v]) ==> Weight(link, mf) <= Weight(e, mf)
    ensures d[v].Fin? && p[v] < |d| && d[p[v]].Fin? && d[v].value == d[p[v]].value + Weight(link, mf)
    ensures Progress(g, mf, d, start, p[v], vs + [p[v]], es + [link])
    ensures Ports(vs + [p[v]], es + [link]) == Ports(vs, es) +
            (if link.source.dpid == g.dpid[v] then [link.source, link.target] else [link.target, link.source])
    ensures (if link.source.dpid == g.dpid[v] then link.target else link.source).dpid == g.dpid[p[v]]
  {
    hide Ports, Total;
    NextHop(g, mf, t, p, d, v, link);
    hide Tree, WellFormed;
    WalkGrows(g, vs, es, link, p[v], mf);
    PortsGrow(vs, es, link, p[v]);
  }

  lemma {:induction false} Arrived(g: Graph, mf: Metrics, d: seq<Dist>, start: nat, t: nat, vs: seq<nat>, es: seq<Edge>)
    requires WellFormed(g) && Progress(g, mf, d, start, t, vs, es) && d[t] == Fin(0)
    ensures d[start] == Fin(Total(es, mf)) && (Ports(vs, es) == [] <==> es == []) && (es == [] ==> start == t)
  {
    PortsSpec(g, vs, es);
  }

  lemma {:induction false} StartsHere(g: Graph, mf: Metrics, d: seq<Dist>, start: nat)
    requires start < |g.dpid| == |d|
    ensures Progress(g, mf, d, start, start, [start], []) && Ports([start], []) == []
  {
  }

  /** The walk itself: from v to the target, one predecessor after the other. */
  method FollowTree(g: Graph, start: nat, t: nat, mf: Metrics, p: seq<nat>, ghost d: seq<Dist>)
    returns (route: seq<Port>, ghost vs: seq<nat>, ghost es: seq<Edge>)
    requires WellFormed(g) && Positive(g, mf) && Tree(g, mf, t, p, d) && start < |g.dpid|
    ensures route == [] <==> start == t || d[start] == Infinite
    ensures route != [] ==>
              && Walk(g, vs, es) && vs[0] == start && vs[|es|] == t
              && route == Ports(vs, es) && Lightest(g, vs, es, mf)
              && d[start] == Fin(Total(es, mf))
  {
    assert |p| == |d| == |g.dpid| && d[t] == Fin(0);
    StartsHere(g, mf, d, start);
    hide Tree, WellFormed, Positive, Ports, Total, Lightest, Walk;
    route, vs, es := [], [start], [];
    var v: nat, u: nat, dpid := start, p[start], g.dpid[start];
    while v != t
      invariant v < |g.dpid| && u == p[v] && dpid == g.dpid[v]
      invariant Progress(g, mf, d, start, v, vs, es)
      invariant route == Ports(vs, es)
      decreases if d[v].Fin? then d[v].value else 0
    {
      var best, link := PickEdge(g, v, u, mf);
      if best == 0 {
        NoHop(g, mf, t, p, d, v);
        return;
      }
      HopAdvances(g, mf, t, p, d, start, v, vs, es, link);
      if link.source.dpid == dpid {
        route := route + [link.source, link.target];
        dpid := link.target.dpid;
      } else {
        route := route + [link.target, link.source];
        dpid := link.source.dpid;
      }
      vs, es := vs + [u], es + [link];
      u, v := p[u], p[v];
    }
    Arrived(g, mf, d, start, t, vs, es);
  }

  predicate Known(g: Graph, from: nat, to: nat) {
    from in g.vertexOf && to in g.vertexOf
  }

  // A walk as heavy as the distance is a shortest one.
  lemma {:induction false} DistanceIsLeast(g: Graph, mf: Metrics, t: nat, p: seq<nat>, d: seq<Dist>, vs: seq<nat>, es: seq<Edge>)
    requires Tree(g, mf, t, p, d) && Walk(g, vs, es) && Lightest(g, vs, es, mf)
    requires vs[|es|] == t && d[vs[0]] == Fin(Total(es, mf))
    ensures Shortest(g, mf, vs, es)
  {
    assert d[t] == Fin(0);
    hide Tree, Total, Lightest;
    forall ws, fs | Walk(g, ws, fs) && ws[0] == vs[0] && ws[|fs|] == t ensures Total(es, mf) <= Total(fs, mf) {
      WalkBound(g, mf, t, p, d, ws, fs);
    }
  }

  lemma {:induction false} OutOfReach(g: Graph, mf: Metrics, t: nat, p: seq<nat>, d: seq<Dist>, v: nat)
    requires Tree(g, mf, t, p, d) && v < |d| && d[v] == Infinite
    ensures !Connected(g, v, t)
  {
    assert d[t] == Fin(0);
    forall ws, fs | Walk(g, ws, fs) && ws[0] == v ensures ws[|fs|] != t {
      if ws[|fs|] == t {
        WalkBound(g, mf, t, p, d, ws, fs);
      }
    }
  }

  /** There is no leg from x to y: a switch is unknown, they are the same, or nothing leads
      from the one to the other. */
  ghost predicate NoLeg(g: Graph, x: nat, y: nat) {
    !Known(g, x, y) || x == y || !Connected(g, g.vertexOf[x], g.vertexOf[y])
  }

  /** The route is the port list of a shortest walk from the one switch to the other, by
      comparison with all walks, over a lightest link at each hop; it is empty exactly when
      there is no leg between them. */
  method ComputePath(g: Graph, from: nat, to: nat, mf: Metrics, p: seq<nat>, ghost d: seq<Dist>)
    returns (route: seq<Port>, ghost vs: seq<nat>, ghost es: seq<Edge>)
    requires WellFormed(g) && Positive(g, mf)
    requires Known(g, from, to) ==> Tree(g, mf, g.vertexOf[to], p, d)
    ensures route == [] <==> NoLeg(g, from, to)
    ensures route != [] ==>
              && Known(g, from, to) && Shortest(g, mf, vs, es) && es != []
              && vs[0] == g.vertexOf[from] && vs[|es|] == g.vertexOf[to] && route == Ports(vs, es)
  {
    route, vs, es := [], [], [];
    if |g.dpid| == 0 {
      return;
    }
    if from !in g.vertexOf || to !in g.vertexOf {
      return;
    }
    var x, y := g.vertexOf[from], g.vertexOf[to];
    assert x < |g.dpid| == |d| && (x == y ==> from == to);
    assert Ports([x], []) == [];
    hide Tree, WellFormed, Positive, Ports, Total, Lightest;
    route, vs, es := FollowTree(g, x, y, mf, p, d);
    if route != [] {
      DistanceIsLeast(g, mf, y, p, d, vs, es);
      assert es == [] ==> vs == [x];
    } else if d[x] == Infinite {
      OutOfReach(g, mf, y, p, d, x);
    }
  }

  // ---------------------------------------------------------------------------
  // inExPath: legs through the included switches, around the excluded ones
  // ---------------------------------------------------------------------------

  predicate Touches(e: Edge, v: nat) {
    e.a == v || e.b == v
  }

  function ClearVertex(es: seq<Edge>, v: nat): seq<Edge> {
    if es == [] then []
    else (if Touches(es[0], v) then [] else [es[0]]) + ClearVertex(es[1..], v)
  }

  /** The graph without the edges of the excluded switches; the ends are never excluded. */
  function Cleared(g: Graph, avoid: seq<nat>, from: nat, to: nat): Graph
    decreases |avoid|
  {
    if avoid == [] then g
    else
      var x := avoid[0];
      var g' := if x != from && x != to && x in g.vertexOf
                then g.(edges := ClearVertex(g.edges, g.vertexOf[x])) else g;
      Cleared(g', avoid[1..], from, to)
  }

  ghost predicate Barred(g: Graph, avoid: seq<nat>, from: nat, to: nat, v: nat) {
    exists x :: x in avoid && x != from && x != to && x in g.vertexOf && g.vertexOf[x] == v
  }

  lemma {:induction false} ClearVertexMembers(es: seq<Edge>, v: nat)
    ensures forall e :: e in ClearVertex(es, v) <==> e in es && !Touches(e, v)
  {
    if es != [] {
      ClearVertexMembers(es[1..], v);
      assert es == [es[0]] + es[1..];
    }
  }

  lemma {:induction false} ClearedMembers(g: Graph, avoid: seq<nat>, from: nat, to: nat)
    ensures var h := Cleared(g, avoid, from, to);
            && h.dpid == g.dpid && h.vertexOf == g.vertexOf
            && forall e :: e in h.edges <==>
                 e in g.edges && !Barred(g, avoid, from, to, e.a) && !Barred(g, avoid, from, to, e.b)
    decreases |avoid|
  {
    if avoid != [] {
      var x := avoid[0];
      var g' := if x != from && x != to && x in g.vertexOf
                then g.(edges := ClearVertex(g.edges, g.vertexOf[x])) else g;
      if x in g.vertexOf {
        ClearVertexMembers(g.edges, g.vertexOf[x]);
      }
      ClearedMembers(g', avoid[1..], from, to);
      assert avoid == [x] + avoid[1..];
      forall v ensures Barred(g, avoid, from, to, v) <==>
                       Barred(g', avoid[1..], from, to, v)
                       || (x != from && x != to && x in g.vertexOf && g.vertexOf[x] == v) {}
    }
  }

  lemma {:induction false} WalkConcat(g: Graph, vs: seq<nat>, es: seq<Edge>, ws: seq<nat>, fs: seq<Edge>)
    requires Walk(g, vs, es) && Walk(g, ws, fs) && vs[|es|] == ws[0]
    ensures Walk(g, vs + ws[1..], es + fs)
  {
    var us, gs, m := vs + ws[1..], es + fs, |es|;
    forall i | 0 <= i < |gs| ensures gs[i] in g.edges && Joins(gs[i], us[i], us[i + 1]) {
      if i >= m {
        assert gs[i] == fs[i - m] && us[i] == ws[i - m] && us[i + 1] == ws[i - m + 1];
      }
    }
  }

  lemma {:induction false} PortsConcat(vs: seq<nat>, es: seq<Edge>, ws: seq<nat>, fs: seq<Edge>)
    requires |vs| == |es| + 1 && |ws| == |fs| + 1 && vs[|es|] == ws[0]
    ensures Ports(vs + ws[1..], es + fs) == Ports(vs, es) + Ports(ws, fs)
  {
    if fs == [] {
      assert vs + ws[1..] == vs && es + fs == es;
    } else {
      hide Ports, PortOn;
      var n := |fs| - 1;
      var ws', fs' := ws[..n + 1], fs[..n];
      PortsConcat(vs, es, ws', fs');
      PortsGrow(ws', fs', fs[n], ws[n + 1]);
      PortsGrow(vs + ws'[1..], es + fs', fs[n], ws[n + 1]);
      assert ws' + [ws[n + 1]] == ws && fs' + [fs[n]] == fs;
      assert vs + ws'[1..] + [ws[n + 1]] == vs + ws[1..] && es + fs' + [fs[n]] == es + fs;
      assert (vs + ws'[1..])[|es + fs'|] == ws[n];
    }
  }

  function Stops(from: nat, via: seq<nat>, to: nat): seq<nat> {
    [from] + via + [to]
  }

  /** A shortest-path tree for every possible target. */
  ghost predicate Trees(g: Graph, mf: Metrics, pred: nat -> seq<nat>, dist: nat -> seq<Dist>) {
    forall t: nat :: t < |g.dpid| ==> Tree(g, mf, t, pred(t), dist(t))
  }

  /** part is the port list of a shortest walk from x to y. */
  ghost predicate IsLeg(g: Graph, mf: Metrics, x: nat, y: nat, part: seq<Port>, ws: seq<nat>, fs: seq<Edge>) {
    && Known(g, x, y) && Shortest(g, mf, ws, fs) && fs != [] && part != []
    && ws[0] == g.vertexOf[x] && ws[|fs|] == g.vertexOf[y] && part == Ports(ws, fs)
  }

  method Leg(g: Graph, x: nat, y: nat, mf: Metrics, pred: nat -> seq<nat>, ghost dist: nat -> seq<Dist>)
    returns (part: seq<Port>, ghost ws: seq<nat>, ghost fs: seq<Edge>)
    requires WellFormed(g) && Positive(g, mf) && Trees(g, mf, pred, dist)
    ensures part == [] <==> NoLeg(g, x, y)
    ensures part != [] ==> IsLeg(g, mf, x, y, part, ws, fs)
  {
    var p := if y in g.vertexOf then pred(g.vertexOf[y]) else [];
    ghost var d := if y in g.vertexOf then dist(g.vertexOf[y]) else [];
    part, ws, fs := ComputePath(g, x, y, mf, p, d);
  }

  // A walk put together from legs: cuts[j] is where in vs leg j ends.
  datatype Trail = Trail(vs: seq<nat>, es: seq<Edge>, cuts: seq<nat>)

  ghost function Extend(t: Trail, ws: seq<nat>, fs: seq<Edge>): Trail
    requires ws != []
  {
    if t.vs == [] then Trail(ws, fs, [|fs|])
    else Trail(t.vs + ws[1..], t.es + fs, t.cuts + [|t.es| + |fs|])
  }

  ghost function TrailPorts(t: Trail): seq<Port> {
    if |t.vs| == |t.es| + 1 then Ports(t.vs, t.es) else []
  }

  ghost predicate Steps(g: Graph, t: Trail) {
    Walk(g, t.vs, t.es) && t.es != [] && t.cuts != [] && t.cuts[|t.cuts| - 1] == |t.es|
  }

  /** The trail passes the stops one after the other. */
  ghost predicate Passes(g: Graph, stops: seq<nat>, t: Trail) {
    && |t.cuts| < |stops| && |t.vs| > 0
    && stops[0] in g.vertexOf && t.vs[0] == g.vertexOf[stops[0]]
    && (forall j :: 0 <= j < |t.cuts| ==>
          t.cuts[j] < |t.vs| && stops[j + 1] in g.vertexOf && t.vs[t.cuts[j]] == g.vertexOf[stops[j + 1]])
    && (forall j, k :: 0 <= j < k < |t.cuts| ==> t.cuts[j] < t.cuts[k])
  }

  ghost function LegStart(t: Trail, j: nat): nat
    requires j < |t.cuts|
  {
    if j == 0 then 0 else t.cuts[j - 1]
  }

  /** Leg j of the trail is a shortest walk. */
  ghost predicate LegShortest(g: Graph, mf: Metrics, t: Trail, j: nat)
    requires j < |t.cuts|
  {
    var a, b := LegStart(t, j), t.cuts[j];
    a <= b <= |t.es| && b < |t.vs| && Shortest(g, mf, t.vs[a..b + 1], t.es[a..b])
  }

  ghost predicate AllShortest(g: Graph, mf: Metrics, t: Trail) {
    forall j :: 0 <= j < |t.cuts| ==> LegShortest(g, mf, t, j)
  }

  lemma {:induction false} OldLeg(g: Graph, mf: Metrics, t: Trail, ws: seq<nat>, fs: seq<Edge>, j: nat)
    requires j < |t.cuts| && LegShortest(g, mf, t, j) && t.vs != [] && ws != []
    ensures LegShortest(g, mf, Extend(t, ws, fs), j)
  {
    hide Shortest;
    var t', a, b := Extend(t, ws, fs), LegStart(t, j), t.cuts[j];
    assert t'.cuts[j] == b && LegStart(t', j) == a;
    assert t'.vs[a..b + 1] == t.vs[a..b + 1];
    assert t'.es[a..b] == t.es[a..b];
  }

  lemma {:induction false} NewLeg(g: Graph, mf: Metrics, t: Trail, ws: seq<nat>, fs: seq<Edge>)
    requires |t.vs| == |t.es| + 1 && |ws| == |fs| + 1 && t.vs[|t.es|] == ws[0] && Shortest(g, mf, ws, fs)
    requires t.cuts != [] && t.cuts[|t.cuts| - 1] == |t.es|
    ensures LegShortest(g, mf, Extend(t, ws, fs), |t.cuts|)
  {
    hide Shortest;
    var t', a, b := Extend(t, ws, fs), |t.es|, |t.es| + |fs|;
    assert t'.vs[a..b + 1] == ws;
    assert t'.es[a..b] == fs;
  }

  lemma {:induction false} ShortestExtend(g: Graph, mf: Metrics, t: Trail, ws: seq<nat>, fs: seq<Edge>)
    requires Steps(g, t) && AllShortest(g, mf, t) && Shortest(g, mf, ws, fs) && t.vs[|t.es|] == ws[0]
    ensures AllShortest(g, mf, Extend(t, ws, fs))
  {
    assert |t.vs| == |t.es| + 1 && |ws| == |fs| + 1;
    hide Shortest, Walk, LegShortest;
    var t' := Extend(t, ws, fs);
    forall j | 0 <= j < |t'.cuts| ensures LegShortest(g, mf, t', j) {
      if j < |t.cuts| {
        OldLeg(g, mf, t, ws, fs, j);
      } else {
        NewLeg(g, mf, t, ws, fs);
      }
    }
  }

  ghost predicate Legs(g: Graph, mf: Metrics, stops: seq<nat>, i: nat, t: Trail) {
    && |t.cuts| == i
    && if i == 0 then t == Trail([], [], []) else Steps(g, t) && Passes(g, stops, t) && AllShortest(g, mf, t)
  }

  lemma {:induction false} StepsExtend(g: Graph, t: Trail, ws: seq<nat>, fs: seq<Edge>)
    requires Steps(g, t) && Walk(g, ws, fs) && t.vs[|t.es|] == ws[0]
    ensures Steps(g, Extend(t, ws, fs)) && TrailPorts(Extend(t, ws, fs)) == TrailPorts(t) + Ports(ws, fs)
  {
    WalkConcat(g, t.vs, t.es, ws, fs);
    PortsConcat(t.vs, t.es, ws, fs);
  }

  lemma {:induction false} PassesExtend(g: Graph, stops: seq<nat>, t: Trail, ws: seq<nat>, fs: seq<Edge>)
    requires Steps(g, t) && Passes(g, stops, t) && |ws| == |fs| + 1 && fs != []
    requires |t.cuts| + 1 < |stops| && stops[|t.cuts| + 1] in g.vertexOf && ws[|fs|] == g.vertexOf[stops[|t.cuts| + 1]]
    ensures Passes(g, stops, Extend(t, ws, fs))
  {
    var t' := Extend(t, ws, fs);
    assert t'.vs[|t.es| + |fs|] == ws[|fs|];
    forall j, k | 0 <= j < k < |t'.cuts| ensures t'.cuts[j] < t'.cuts[k] {
      assert j < |t.cuts| - 1 ==> t.cuts[j] < t.cuts[|t.cuts| - 1];
    }
  }

  lemma {:induction false} LegAdded(g: Graph, mf: Metrics, stops: seq<nat>, i: nat, t: Trail, ws: seq<nat>, fs: seq<Edge>)
    requires Legs(g, mf, stops, i, t) && i + 1 < |stops| && Shortest(g, mf, ws, fs) && fs != []
    requires stops[i] in g.vertexOf && stops[i + 1] in g.vertexOf
    requires ws[0] == g.vertexOf[stops[i]] && ws[|fs|] == g.vertexOf[stops[i + 1]]
    ensures Legs(g, mf, stops, i + 1, Extend(t, ws, fs))
    ensures TrailPorts(Extend(t, ws, fs)) == TrailPorts(t) + Ports(ws, fs)
  {
    assert Walk(g, ws, fs);
    hide Shortest, AllShortest;
    if i > 0 {
      assert t.vs[t.cuts[i - 1]] == g.vertexOf[stops[i - 1 + 1]];
      StepsExtend(g, t, ws, fs);
      PassesExtend(g, stops, t, ws, fs);
      ShortestExtend(g, mf, t, ws, fs);
    } else {
      FirstLeg(g, mf, ws, fs);
    }
  }

  lemma {:induction false} FirstLeg(g: Graph, mf: Metrics, ws: seq<nat>, fs: seq<Edge>)
    requires Shortest(g, mf, ws, fs)
    ensures AllShortest(g, mf, Trail(ws, fs, [|fs|]))
  {
    assert ws[0..|fs| + 1] == ws && fs[0..|fs|] == fs;
  }

  // A walk of at least one edge in the cleared graph meets no barred vertex.
  lemma {:induction false} WalkAvoids(g: Graph, avoid: seq<nat>, from: nat, to: nat, vs: seq<nat>, es: seq<Edge>)
    requires Walk(Cleared(g, avoid, from, to), vs, es) && es != []
    ensures Walk(g, vs, es) && forall i :: 0 <= i < |vs| ==> !Barred(g, avoid, from, to, vs[i])
    ensures Cleared(g, avoid, from, to).vertexOf == g.vertexOf
  {
    ClearedMembers(g, avoid, from, to);
    var h := Cleared(g, avoid, from, to);
    forall i | 0 <= i < |vs| ensures !Barred(g, avoid, from, to, vs[i]) {
      var k := if i < |es| then i else i - 1;
      assert es[k] in h.edges && Joins(es[k], vs[k], vs[k + 1]);
    }
  }

  lemma {:induction false} ClearedOk(g: Graph, avoid: seq<nat>, from: nat, to: nat, mf: Metrics)
    requires WellFormed(g) && Positive(g, mf)
    ensures WellFormed(Cleared(g, avoid, from, to)) && Positive(Cleared(g, avoid, from, to), mf)
  {
    ClearedMembers(g, avoid, from, to);
  }

  // The trail of the first i legs, and its port list.
  ghost predicate Chained(g: Graph, mf: Metrics, stops: seq<nat>, i: nat, t: Trail, route: seq<Port>) {
    Legs(g, mf, stops, i, t) && route == TrailPorts(t) && (i > 0 ==> route != [])
  }

  lemma {:induction false} ChainGrows(g: Graph, mf: Metrics, stops: seq<nat>, i: nat, t: Trail, route: seq<Port>,
                                      part: seq<Port>, ws: seq<nat>, fs: seq<Edge>)
    requires i + 1 < |stops| && Chained(g, mf, stops, i, t, route)
    requires IsLeg(g, mf, stops[i], stops[i + 1], part, ws, fs)
    ensures ws != [] && Chained(g, mf, stops, i + 1, Extend(t, ws, fs), route + part)
  {
    LegAdded(g, mf, stops, i, t, ws, fs);
  }

  lemma {:induction false} ChainStarts(g: Graph, mf: Metrics, stops: seq<nat>)
    ensures Chained(g, mf, stops, 0, Trail([], [], []), [])
  {
  }

  // There is no leg from stop j to the next.
  ghost predicate Gap(g: Graph, stops: seq<nat>, j: nat)
    requires j + 1 < |stops|
  {
    NoLeg(g, stops[j], stops[j + 1])
  }

  ghost predicate SomeGap(g: Graph, stops: seq<nat>) {
    exists j :: 0 <= j < |stops| - 1 && Gap(g, stops, j)
  }

  /** One leg after the other, giving up at the first that is missing. */
  method ChainLegs(g: Graph, stops: seq<nat>, mf: Metrics, pred: nat -> seq<nat>, ghost dist: nat -> seq<Dist>)
    returns (route: seq<Port>, ghost t: Trail)
    requires WellFormed(g) && Positive(g, mf) && Trees(g, mf, pred, dist) && |stops| >= 2
    ensures route == [] <==> SomeGap(g, stops)
    ensures route != [] ==> Legs(g, mf, stops, |stops| - 1, t) && route == TrailPorts(t)
  {
    hide WellFormed, Positive, Trees, NoLeg, Chained, IsLeg, Extend;
    ChainStarts(g, mf, stops);
    route, t := [], Trail([], [], []);
    var tfrom := stops[0];
    for i := 0 to |stops| - 1
      invariant tfrom == stops[i]
      invariant Chained(g, mf, stops, i, t, route)
      invariant forall j :: 0 <= j < i ==> !Gap(g, stops, j)
    {
      var part;
      ghost var ws, fs;
      part, ws, fs := Leg(g, tfrom, stops[i + 1], mf, pred, dist);
      assert part == [] <==> Gap(g, stops, i);
      if part == [] {
        return [], t;
      }
      ChainGrows(g, mf, stops, i, t, route, part, ws, fs);
      route := route + part;
      t := Extend(t, ws, fs);
      tfrom := stops[i + 1];
    }
    ChainEnds(g, mf, stops, |stops| - 1, t, route);
  }

  lemma {:induction false} ChainEnds(g: Graph, mf: Metrics, stops: seq<nat>, i: nat, t: Trail, route: seq<Port>)
    requires Chained(g, mf, stops, i, t, route) && i > 0
    ensures Legs(g, mf, stops, i, t) && route == TrailPorts(t) && route != []
  {
  }

  /** The trail passes the included switches one after the other, between from and to. */
  ghost predicate Visits(g: Graph, from: nat, via: seq<nat>, to: nat, t: Trail) {
    && |t.vs| == |t.es| + 1 && |t.cuts| == |via| + 1 && t.cuts[|via|] == |t.es|
    && Known(g, from, to) && t.vs[0] == g.vertexOf[from] && t.vs[|t.es|] == g.vertexOf[to]
    && (forall j :: 0 <= j < |via| ==>
          via[j] in g.vertexOf && t.cuts[j] < |t.vs| && t.vs[t.cuts[j]] == g.vertexOf[via[j]])
    && (forall j, k :: 0 <= j < k < |t.cuts| ==> t.cuts[j] < t.cuts[k])
  }

  /** The route is the port list of a walk of the graph that visits the included switches in
      order, meets no vertex of an excluded switch, and goes from each switch to the next by a
      shortest walk of the graph without the excluded switches. */
  ghost predicate GoodRoute(g: Graph, mf: Metrics, via: seq<nat>, avoid: seq<nat>, from: nat, to: nat,
                            route: seq<Port>, t: Trail) {
    && Walk(g, t.vs, t.es) && route == Ports(t.vs, t.es) && Visits(g, from, via, to, t)
    && (forall i :: 0 <= i < |t.vs| ==> !Barred(g, avoid, from, to, t.vs[i]))
    && AllShortest(Cleared(g, avoid, from, to), mf, t)
  }

  /** There is no leg from the one end to the first included switch, from some included switch to
      the next, or from the last one to the other end. */
  ghost predicate MissingLeg(g: Graph, from: nat, via: seq<nat>, to: nat) {
    if via == [] then NoLeg(g, from, to)
    else NoLeg(g, from, via[0]) || SomeGap(g, via) || NoLeg(g, via[|via| - 1], to)
  }

  lemma {:induction false} GapIsMissing(g: Graph, from: nat, via: seq<nat>, to: nat)
    ensures SomeGap(g, Stops(from, via, to)) <==> MissingLeg(g, from, via, to)
  {
    hide NoLeg;
    var all, n := Stops(from, via, to), |via|;
    assert all[0] == from && all[n + 1] == to && forall j :: 0 <= j < n ==> all[j + 1] == via[j];
    if j :| 0 <= j < |all| - 1 && Gap(g, all, j) {
      if 0 < j < n {
        assert all[j] == via[j - 1] && all[j + 1] == via[j];
        assert Gap(g, via, j - 1);
      }
    }
    if MissingLeg(g, from, via, to) {
      if via == [] || NoLeg(g, from, via[0]) {
        assert Gap(g, all, 0);
      } else if NoLeg(g, via[n - 1], to) {
        assert Gap(g, all, n);
      } else {
        var j :| 0 <= j < n - 1 && Gap(g, via, j);
        assert Gap(g, all, j + 1);
      }
    }
  }

  lemma {:induction false} PassesVisits(g: Graph, from: nat, via: seq<nat>, to: nat, t: Trail)
    requires Passes(g, Stops(from, via, to), t) && |t.cuts| == |via| + 1
    requires |t.vs| == |t.es| + 1 && t.cuts[|via|] == |t.es|
    ensures Visits(g, from, via, to, t)
  {
    var all, n := Stops(from, via, to), |via|;
    assert all[0] == from && all[n + 1] == to && forall j :: 0 <= j < n ==> all[j + 1] == via[j];
    PassesAt(g, all, t, n);
    forall j | 0 <= j < n
      ensures via[j] in g.vertexOf && t.cuts[j] < |t.vs| && t.vs[t.cuts[j]] == g.vertexOf[via[j]]
    {
      PassesAt(g, all, t, j);
    }
    hide Stops;
  }

  lemma {:induction false} PassesAt(g: Graph, stops: seq<nat>, t: Trail, j: nat)
    requires Passes(g, stops, t) && j < |t.cuts|
    ensures t.cuts[j] < |t.vs| && stops[j + 1] in g.vertexOf && t.vs[t.cuts[j]] == g.vertexOf[stops[j + 1]]
  {
  }

  lemma {:induction false} PassesSame(h: Graph, g: Graph, stops: seq<nat>, t: Trail)
    requires Passes(h, stops, t) && h.vertexOf == g.vertexOf
    ensures Passes(g, stops, t)
  {
  }

  lemma {:induction false} ClearedRoute(g: Graph, mf: Metrics, via: seq<nat>, avoid: seq<nat>, from: nat, to: nat, t: Trail)
    requires Legs(Cleared(g, avoid, from, to), mf, Stops(from, via, to), |via| + 1, t)
    ensures GoodRoute(g, mf, via, avoid, from, to, TrailPorts(t), t)
  {
    hide AllShortest, Cleared, Ports, Stops, Visits;
    WalkAvoids(g, avoid, from, to, t.vs, t.es);
    PassesSame(Cleared(g, avoid, from, to), g, Stops(from, via, to), t);
    PassesVisits(g, from, via, to, t);
  }

  /** The route is empty exactly when an end is listed as included or some leg is missing;
      otherwise it is a good one. */
  method InExPath(g: Graph, via: seq<nat>, avoid: seq<nat>, mf: Metrics, from: nat, to: nat,
                  pred: nat -> seq<nat>, ghost dist: nat -> seq<Dist>)
    returns (route: seq<Port>, ghost t: Trail)
    requires WellFormed(g) && Positive(g, mf) && Trees(Cleared(g, avoid, from, to), mf, pred, dist)
    ensures route == [] <==> from in via || to in via || MissingLeg(Cleared(g, avoid, from, to), from, via, to)
    ensures route != [] ==> GoodRoute(g, mf, via, avoid, from, to, route, t)
  {
    if from in via || to in via {
      return [], Trail([], [], []);
    }
    ClearedOk(g, avoid, from, to, mf);
    hide WellFormed, Positive, Trees, GoodRoute, MissingLeg, SomeGap, Legs;
    GapIsMissing(Cleared(g, avoid, from, to), from, via, to);
    route, t := ChainLegs(Cleared(g, avoid, from, to), Stops(from, via, to), mf, pred, dist);
    if route != [] {
      ClearedRoute(g, mf, via, avoid, from, to, t);
    }
  }
}
