/** The link-discovery application object: the containers are fields edited in place by
    loops (src/core/LinkDiscovery.cc), and every method refines the matching step. */
module LinkDiscoveryApp {
  import opened LinkDiscovery

  /** An outcome with the signals of what went before. */
  function After(signals: seq<Signal>, o: Outcome): Outcome {
    if o.Crash? then Crash else Next(o.state, signals + o.signals)
  }

  // One round of the loop over the expired links.
  lemma {:induction false} ExpireFront(links: seq<Link>, index: map<Port, Link>, now: int, signals: seq<Signal>)
    requires links != [] && links[0].until < now
    ensures var s, t := links[0].source, links[0].target;
            if s in index && t in index - {s}
            then After(signals, Expire(links, index, now)) ==
                 After(signals + [Broken(s, t)], Expire(links[1..], index - {s} - {t}, now))
            else Expire(links, index, now) == Crash
  {
    var s, t := links[0].source, links[0].target;
    assert index - {s} - {t} == index - {s, t};
    var rest := Expire(links[1..], index - {s, t}, now);
    assert rest.Next? ==> signals + ([Broken(s, t)] + rest.signals) == signals + [Broken(s, t)] + rest.signals;
  }

  lemma {:induction false} ExpireDone(links: seq<Link>, index: map<Port, Link>, now: int, signals: seq<Signal>)
    requires links == [] || links[0].until >= now
    ensures After(signals, Expire(links, index, now)) == Next(State(links, [], index), signals)
  {
    assert signals + [] == signals;
  }

  class Discovery {
    var links: seq<Link>
    var waiting: seq<Link>
    var outEdges: map<Port, Link>
    const hold: nat // how long a beacon vouches for a link: twice the poll interval

    constructor (pollInterval: nat)
      ensures View() == EMPTY && hold == 2 * pollInterval
    {
      links, waiting, outEdges := [], [], map[];
      hold := 2 * pollInterval;
    }

    ghost function View(): State
      reads this
    {
      State(links, waiting, outEdges)
    }

    /** What a method reports is what the step says: ok iff every CHECK passed. */
    ghost predicate Did(o: Outcome, ok: bool, signals: seq<Signal>)
      reads this
    {
      ok == o.Next? && (ok ==> View() == o.state && signals == o.signals)
    }

    static method FindLink(s: seq<Link>, a: Port, b: Port) returns (i: nat)
      ensures i == Find(s, a, b)
    {
      i := 0;
      while i < |s| && !Same(s[i], a, b)
        invariant 0 <= i <= |s|
        invariant Find(s, a, b) == i + Find(s[i..], a, b)
      {
        assert s[i..][1..] == s[i + 1..];
        i := i + 1;
      }
    }

    method AddLink(link: Link) returns (n: Link, isNew: bool)
      modifies this`links, this`outEdges
      ensures n == Normal(link) && isNew == !Has(old(links), n.source, n.target)
      ensures View() == LinkDiscovery.AddLink(old(View()), n)
    {
      isNew := true;
      n := link;
      if Less(n.target, n.source) {
        n := Link(n.target, n.source, n.until);
      }
      var i := FindLink(links, n.source, n.target);
      if i < |links| {
        links := links[..i] + links[i + 1..];
        isNew := false;
      }
      links := Insert(links, n);
      outEdges := outEdges[n.source := n];
      outEdges := outEdges[n.target := n];
    }

    method AddWaitingLink(link: Link)
      modifies this`waiting
      ensures View() == AddWaiting(old(View()), link)
    {
      var i := FindLink(waiting, link.source, link.target);
      if i < |waiting| {
        waiting := waiting[..i] + waiting[i + 1..];
      }
      waiting := Insert(waiting, link);
    }

    method RemoveWaitingLink(from: Port, to: Port)
      modifies this`waiting
      ensures waiting == Erase(old(waiting), from, to)
    {
      var i := FindLink(waiting, from, to);
      if i == |waiting| {
        return;
      }
      waiting := waiting[..i] + waiting[i + 1..];
    }

    /** A CHECK that the index had an entry for p to erase. */
    method EraseEdge(p: Port) returns (ok: bool)
      modifies this`outEdges
      ensures ok <==> p in old(outEdges)
      ensures outEdges == old(outEdges) - {p}
    {
      ok := p in outEdges;
      outEdges := outEdges - {p};
    }

    method RemoveLink(a: Port, b: Port) returns (ok: bool, signals: seq<Signal>)
      modifies this`links, this`outEdges
      ensures Did(LinkDiscovery.RemoveLink(old(View()), a, b), ok, signals)
    {
      signals := [];
      var from, to := a, b;
      if Less(to, from) {
        from, to := to, from;
      }
      var i := FindLink(links, from, to);
      if i == |links| {
        return false, [];
      }
      links := links[..i] + links[i + 1..];
      ok := EraseEdge(from);
      if !ok {
        return;
      }
      ok := EraseEdge(to);
      assert old(outEdges) - {from} - {to} == old(outEdges) - {from, to};
      signals := [Broken(from, to)];
    }

    method RemoveBrokenLink(from: Port) returns (ok: bool, signals: seq<Signal>)
      modifies this`links, this`outEdges
      ensures Did(RemoveBroken(old(View()), from), ok, signals)
    {
      if from !in outEdges {
        return true, [];
      }
      var oldFrom, oldTo := outEdges[from].source, outEdges[from].target;
      if oldTo !in outEdges {
        return false, [];
      }
      ok, signals := RemoveLink(oldFrom, oldTo);
    }

    method OnBeacon(from: Port, to: Port, until: int) returns (ok: bool, signals: seq<Signal>)
      modifies this
      ensures Did(HandleBeacon(old(View()), from, to, until), ok, signals)
    {
      var link := Link(from, to, until);
      ok, signals := true, [];
      var same := FindLink(waiting, from, to);
      var reversed := FindLink(waiting, to, from);
      if reversed < |waiting| {
        RemoveWaitingLink(to, from);
        var isNew;
        link, isNew := AddLink(link);
        if isNew {
          signals := [Discovered(link.source, link.target)];
        }
      } else if same < |waiting| {
        // Link of the same direction
      } else {
        ok, signals := RemoveBrokenLink(from);
        if !ok {
          return;
        }
        var more;
        ok, more := RemoveBrokenLink(to);
        if !ok {
          return;
        }
        signals := signals + more;
      }
      AddWaitingLink(link);
    }

    method ExpireLinks(now: int) returns (ok: bool, signals: seq<Signal>)
      modifies this`links, this`outEdges
      ensures var o := Expire(old(links), old(outEdges), now);
              ok == o.Next? && (ok ==> links == o.state.links && outEdges == o.state.index && signals == o.signals)
    {
      hide Expire;
      signals := [];
      while links != [] && links[0].until < now
        invariant After(signals, Expire(links, outEdges, now)) == Expire(old(links), old(outEdges), now)
        decreases |links|
      {
        ExpireFront(links, outEdges, now, signals);
        var top := links[0];
        signals := signals + [Broken(top.source, top.target)];
        ok := EraseEdge(top.source);
        if !ok {
          return;
        }
        ok := EraseEdge(top.target);
        if !ok {
          return;
        }
        links := links[1..];
      }
      ExpireDone(links, outEdges, now, signals);
      ok := true;
    }

    method Polling(now: int) returns (ok: bool, signals: seq<Signal>)
      modifies this
      ensures Did(Poll(old(View()), now), ok, signals)
    {
      ok, signals := ExpireLinks(now);
      if !ok {
        return;
      }
      label Loop:
      while waiting != [] && waiting[0].until < now
        invariant links == old@Loop(links) && outEdges == old@Loop(outEdges)
        invariant DropExpired(waiting, now) == DropExpired(old(waiting), now)
        decreases |waiting|
      {
        waiting := waiting[1..];
      }
    }

    method LoadFromDatabase(saved: seq<(Port, Port)>, known: set<nat>, now: int)
      modifies this
      ensures View() == Load(EMPTY, saved, known, now + hold)
    {
      links, waiting, outEdges := [], [], map[];
      for i := 0 to |saved|
        invariant Load(View(), saved[i..], known, now + hold) == Load(EMPTY, saved, known, now + hold)
      {
        assert saved[i..][1..] == saved[i + 1..];
        var (from, to) := saved[i];
        if from.dpid !in known || to.dpid !in known {
          continue;
        }
        var link, isNew := AddLink(Link(from, to, now + hold));
        AddWaitingLink(link);
      }
    }

    method OtherEnd(p: Port) returns (r: Answer)
      ensures r == Other(View(), p)
    {
      if p !in outEdges {
        return Reply(Port(0, 0));
      }
      var edge := outEdges[p];
      var target := if edge.source == p then edge.target else edge.source;
      var i := FindLink(links, edge.source, edge.target);
      r := if i < |links| then Reply(target) else CheckFailed;
    }

    /** One event, dispatched as the controller does. */
    method Handle(e: Event) returns (ok: bool, signals: seq<Signal>)
      modifies this
      ensures Did(Step(old(View()), e, hold), ok, signals)
    {
      hide HandleBeacon, RemoveBroken, Poll, Load;
      match e {
        case Beacon(from, to, known, now) =>
          if from.dpid !in known || to.dpid !in known {
            return true, [];
          }
          ok, signals := OnBeacon(from, to, now + hold);
        case PortDown(p, _) =>
          ok, signals := RemoveBrokenLink(p);
        case Tick(now) =>
          ok, signals := Polling(now);
        case Reload(saved, known, now) =>
          LoadFromDatabase(saved, known, now);
          ok, signals := true, [];
      }
    }
  }
}
