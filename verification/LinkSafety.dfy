/** When the CHECKs of link discovery hold (src/core/LinkDiscovery.cc).

    A failed CHECK ends the process.  Whether one can fail depends on the index agreeing with
    the links, and that on which links are confirmed: exactly when is shown first, for any
    cabling, and then that a fixed pairing of the ports is enough. */
module LinkSafety {
  import opened LinkDiscovery

  /** The index maps both ends of every link to that link. */
  ghost predicate Indexed(st: State) {
    forall l :: l in st.links ==> && l.source in st.index && st.index[l.source] == l
                                  && l.target in st.index && st.index[l.target] == l
  }

  ghost predicate LoopFree(st: State) {
    forall l :: l in st.links ==> l.source != l.target
  }

  ghost predicate Safe(st: State) {
    Indexed(st) && LoopFree(st)
  }

  ghost predicate SafeOutcome(o: Outcome) {
    o.Next? && Safe(o.state)
  }

  // ---------------------------------------------------------------------------
  // From a safe state no CHECK fails
  // ---------------------------------------------------------------------------

  // Removing a link and its two index entries leaves the others indexed.
  lemma {:induction false} RemoveSafe(st: State, l: Link, rest: seq<Link>)
    requires Sound(st) && Safe(st) && l in st.links
    requires forall k :: k in rest <==> k in st.links && !Same(k, l.source, l.target)
    ensures Erasable(st.index, l.source, l.target)
    ensures Safe(st.(links := rest, index := st.index - {l.source, l.target}))
  {
  }

  lemma {:induction false} RemoveBrokenSafe(st: State, p: Port)
    requires Sound(st) && Safe(st)
    ensures SafeOutcome(RemoveBroken(st, p))
  {
    if p in st.index {
      var l := st.index[p];
      HasMember(st.links, l.source, l.target);
      EraseMembers(st.links, l.source, l.target);
      RemoveSafe(st, l, Erase(st.links, l.source, l.target));
    }
  }

  lemma {:induction false} HeadUnique(links: seq<Link>)
    requires Ordered(links) && links != []
    ensures Ordered(links[1..])
    ensures forall k :: k in links[1..] <==> k in links && !Same(k, links[0].source, links[0].target)
  {
    assert links == [links[0]] + links[1..];
  }

  lemma {:induction false} DropHead(links: seq<Link>, index: map<Port, Link>)
    requires Sound(Links(links, index)) && links != []
    ensures Sound(Links(links[1..], index - {links[0].source, links[0].target}))
  {
    HeadUnique(links);
    var index' := index - {links[0].source, links[0].target};
    forall p | p in index' ensures index'[p] in links[1..] {
      assert Endpoint(p, index[p]);
    }
  }

  lemma {:induction false} ExpireSafe(links: seq<Link>, index: map<Port, Link>, now: int)
    requires Sound(Links(links, index)) && Safe(Links(links, index))
    ensures SafeOutcome(Expire(links, index, now))
  {
    hide Sound, Safe;
    if links != [] && links[0].until < now {
      var l, rest := links[0], links[1..];
      SoundOrdered(links, index);
      HeadUnique(links);
      DropHead(links, index);
      RemoveSafe(Links(links, index), l, rest);
      ExpireSafe(rest, index - {l.source, l.target}, now);
    }
  }

  lemma {:induction false} SoundOrdered(links: seq<Link>, index: map<Port, Link>)
    requires Sound(Links(links, index))
    ensures Ordered(links)
  {
  }

  lemma {:induction false} PollSafe(st: State, now: int)
    requires Sound(st) && Safe(st)
    ensures SafeOutcome(Poll(st, now))
  {
    assert Sound(Links(st.links, st.index)) && Safe(Links(st.links, st.index));
    ExpireSafe(st.links, st.index, now);
  }

  // ---------------------------------------------------------------------------
  // What each event does
  // ---------------------------------------------------------------------------

  // The link at p, if there is one, is the one the index names.
  lemma {:induction false} LinkAt(st: State, p: Port)
    requires Sound(st) && Safe(st)
    ensures forall l :: l in st.links && Endpoint(p, l) <==> p in st.index && l == st.index[p]
  {
  }

  // Whichever end of its link p is.
  lemma {:induction false} RemovesLinkAt(st: State, p: Port)
    requires Sound(st) && Safe(st)
    ensures var o := RemoveBroken(st, p);
            && o.Next? && o.state.waiting == st.waiting && p !in o.state.index
            && (forall l :: l in o.state.links <==> l in st.links && !Endpoint(p, l))
            && (forall l :: l in st.links && Endpoint(p, l) ==> o.signals == [Broken(l.source, l.target)])
            && ((forall l :: l in st.links ==> !Endpoint(p, l)) ==> o.signals == [])
  {
    hide Ordered, Erase, Has;
    LinkAt(st, p);
    RemoveBrokenSafe(st, p);
    if p in st.index {
      var l := st.index[p];
      HasMember(st.links, l.source, l.target);
      EraseMembers(st.links, l.source, l.target);
      forall k | k in st.links && Same(k, l.source, l.target) ensures k == l {
        SameIfTouch(st, l, k);
      }
    }
  }

  /** A port that goes down ends the link at that port, whichever end it is, and no other: the
      port leaves the index, and exactly the pair of that link, if any, is told broken. */
  lemma {:induction false} PortDownExactly(st: State, p: Port, now: int, hold: nat)
    requires Sound(st) && Safe(st)
    ensures var o := Step(st, PortDown(p, now), hold);
            && o.Next? && o.state.waiting == st.waiting && p !in o.state.index
            && (forall l :: l in o.state.links <==> l in st.links && !Endpoint(p, l))
            && (forall l :: l in st.links && Endpoint(p, l) ==> o.signals == [Broken(l.source, l.target)])
            && ((forall l :: l in st.links ==> !Endpoint(p, l)) ==> o.signals == [])
  {
    hide RemoveBroken, Sound, Safe;
    RemovesLinkAt(st, p);
  }

  /** A poll ends exactly the links, and drops exactly the waiting entries, that expired before it,
      and tells those links in order of expiry. */
  lemma {:induction false} TickExactly(st: State, now: int, hold: nat)
    requires Sound(st) && Safe(st)
    ensures var o := Step(st, Tick(now), hold);
            && o.Next?
            && (forall l :: l in o.state.links <==> l in st.links && l.until >= now)
            && (forall l :: l in o.state.waiting <==> l in st.waiting && l.until >= now)
            && Names(o.signals, st.links, now) && o.state.links == DropExpired(st.links, now)
            && |o.signals| + |o.state.links| == |st.links|
  {
    hide Sound, Safe, Names, DropExpired, Poll, Ordered;
    PollSafe(st, now);
    PollMembers(st, now);
    PollTells(st, now);
  }

  lemma {:induction false} PollTells(st: State, now: int)
    requires Poll(st, now).Next?
    ensures var o := Poll(st, now);
            && Names(o.signals, st.links, now) && o.state.links == DropExpired(st.links, now)
            && |o.signals| + |o.state.links| == |st.links|
  {
    hide Names, DropExpired, Expire;
    LinkDiscovery.ExpireLinks(st.links, st.index, now);
    ExpireSignals(st.links, st.index, now);
    NamesFit(Poll(st, now).signals, st.links, now);
  }

  /** A beacon that names an unknown switch is ignored; any other vouches for its pair until now
      plus the time it holds. */
  lemma {:induction false} StrangersIgnored(st: State, from: Port, to: Port, known: set<nat>, now: int, hold: nat)
    ensures Step(st, Beacon(from, to, known, now), hold) ==
            if {from.dpid, to.dpid} <= known then HandleBeacon(st, from, to, now + hold) else Next(st, [])
  {
    hide HandleBeacon;
  }

  /** Whatever the state, taking out the link at p fails a CHECK exactly if p is indexed and not
      both ends of that link are, or the link is a loop. */
  lemma {:induction false} RemovalFailsExactly(st: State, p: Port)
    requires Sound(st)
    ensures RemoveBroken(st, p).Crash? <==>
            p in st.index && var l := st.index[p]; !(l.source in st.index && l.target in st.index && l.source != l.target)
  {
    if p in st.index {
      var l := st.index[p];
      assert !Less(l.target, l.source);
      HasMember(st.links, l.source, l.target);
    }
  }

  /** What is said of the pairs of the links that end at p. */
  ghost predicate TellsEnds(st: State, p: Port, out: seq<Signal>) {
    forall x :: x in out <==> exists l :: l in st.links && Endpoint(p, l) && x == Broken(l.source, l.target)
  }

  lemma {:induction false} PortDownTells(st: State, p: Port)
    requires Sound(st) && Safe(st)
    ensures RemoveBroken(st, p).Next? && TellsEnds(st, p, RemoveBroken(st, p).signals)
  {
    RemovesLinkAt(st, p);
    LinkAt(st, p);
    hide RemoveBroken, Sound, Safe;
    if p in st.index {
      var l := st.index[p];
      assert l in st.links && Endpoint(p, l);
    }
  }

  /** A beacon of which neither direction waits ends every link at either of its ports, and no
      other, tells exactly those, and then waits for the other direction. */
  lemma {:induction false} NewBeaconExactly(st: State, from: Port, to: Port, until: int)
    requires Sound(st) && Safe(st) && !Has(st.waiting, to, from) && !Has(st.waiting, from, to)
    ensures var o := HandleBeacon(st, from, to, until);
            && o.Next? && from !in o.state.index && to !in o.state.index
            && (forall l :: l in o.state.links <==> l in st.links && !Endpoint(from, l) && !Endpoint(to, l))
            && (forall l :: l in o.state.waiting <==> l == Link(from, to, until) || l in st.waiting)
            && (forall x :: x in o.signals <==>
                  exists l :: l in st.links && (Endpoint(from, l) || Endpoint(to, l)) && x == Broken(l.source, l.target))
  {
    hide RemoveBroken, Safe, Ordered, Has, AddWaiting;
    RemovesLinkAt(st, from);
    var link, st1 := Link(from, to, until), RemoveBroken(st, from).state;
    PortDownTells(st, from);
    RemoveBrokenSafe(st, from);
    RemoveBrokenSound(st, from);
    RemovesLinkAt(st1, to);
    PortDownTells(st1, to);
    RemoveBrokenSound(st1, to);
    RemoveBrokenSafe(st1, to);
    var st2 := RemoveBroken(st1, to).state;
    StaysOut(st1, to, from);
    AddWaitingMembers(st2, link);
    WaitingKeepsLinks(st2, link);
    HasMember(st.waiting, from, to);
    var out1, out2 := RemoveBroken(st, from).signals, RemoveBroken(st1, to).signals;
    forall x ensures x in out1 + out2 <==>
                     exists l :: l in st.links && (Endpoint(from, l) || Endpoint(to, l)) && x == Broken(l.source, l.target)
    {
      assert x in out1 + out2 <==> x in out1 || x in out2;
      if l :| l in st.links && (Endpoint(from, l) || Endpoint(to, l)) && x == Broken(l.source, l.target) {
        assert !Endpoint(from, l) ==> l in st1.links;
      }
    }
  }

  // A port out of the index is not put back by a removal.
  lemma {:induction false} StaysOut(st: State, p: Port, q: Port)
    requires q !in st.index && RemoveBroken(st, p).Next?
    ensures q !in RemoveBroken(st, p).state.index
  {
  }

  /** A beacon of which only its own direction waits renews that entry and does nothing else. */
  lemma {:induction false} RepeatedBeaconExactly(st: State, from: Port, to: Port, until: int)
    requires Sound(st) && !Has(st.waiting, to, from) && Has(st.waiting, from, to)
    ensures var o := HandleBeacon(st, from, to, until);
            && o.Next? && o.signals == [] && o.state.links == st.links && o.state.index == st.index
            && forall l :: l in o.state.waiting <==>
                 l == Link(from, to, until) || (l in st.waiting && !Same(l, from, to))
  {
    hide Has, Insert, Erase;
    AddWaitingMembers(st, Link(from, to, until));
  }

  /** A beacon of which the other direction waits makes or renews the link, indexed from both
      ends, in place of the waiting entry of the other direction; it is told iff it is new. */
  lemma {:induction false} ConfirmingBeaconExactly(st: State, from: Port, to: Port, until: int)
    requires Sound(st) && Has(st.waiting, to, from)
    ensures var o, n := HandleBeacon(st, from, to, until), Normal(Link(from, to, until));
            && o.Next? && o.state.index == st.index[n.source := n][n.target := n]
            && (forall l :: l in o.state.links <==> l == n || (l in st.links && !Same(l, n.source, n.target)))
            && (forall l :: l in o.state.waiting <==>
                  l == n || (l in st.waiting && !Same(l, to, from) && !Same(l, n.source, n.target)))
            && o.signals == if exists l :: l in st.links && Same(l, n.source, n.target) then []
                            else [Discovered(n.source, n.target)]
  {
    hide Has, Insert, Erase, Ordered;
    var n, st1 := Normal(Link(from, to, until)), st.(waiting := Erase(st.waiting, to, from));
    EraseMembers(st.waiting, to, from);
    AddLinkMembers(st1, n);
    AddWaitingMembers(AddLink(st1, n), n);
    HasMember(st.links, n.source, n.target);
  }

  // ---------------------------------------------------------------------------
  // From any other state the polls will fail one
  // ---------------------------------------------------------------------------

  // A loop over expired links that gets to its end has met only safe ones: an end shared by
  // two links would have been erased twice.
  lemma {:induction false} ExpireNeeds(links: seq<Link>, index: map<Port, Link>, now: int)
    requires Sound(Links(links, index)) && forall l :: l in links ==> l.until < now
    requires Expire(links, index, now).Next?
    ensures Safe(Links(links, index))
  {
    if links != [] {
      var l, rest := links[0], links[1..];
      var index' := index - {l.source, l.target};
      assert l in links;
      DropHead(links, index);
      ExpireNeeds(rest, index', now);
      SafeAgain(links, index);
    }
  }

  lemma {:induction false} SafeAgain(links: seq<Link>, index: map<Port, Link>)
    requires Sound(Links(links, index)) && links != []
    requires Erasable(index, links[0].source, links[0].target)
    requires Safe(Links(links[1..], index - {links[0].source, links[0].target}))
    ensures Safe(Links(links, index))
  {
    hide Ordered;
    var l, rest := links[0], links[1..];
    assert links == [l] + rest;
    forall p | p in {l.source, l.target} ensures index[p] == l {
      assert index[p] in rest ==> p in index - {l.source, l.target};
    }
  }

  // A time by which all have expired.
  ghost function Latest(links: seq<Link>): (t: int)
    ensures forall l :: l in links ==> l.until <= t
  {
    if links == [] then 0
    else
      var t := Latest(links[1..]);
      assert links == [links[0]] + links[1..];
      if links[0].until > t then links[0].until else t
  }

  /** No poll, whenever it comes, fails a CHECK iff every link is indexed from both its ends
      and no link is a loop. */
  lemma {:induction false} PollsPassExactly(st: State)
    requires Sound(st)
    ensures (forall now :: Poll(st, now).Next?) <==> Safe(st)
  {
    if Safe(st) {
      forall now ensures Poll(st, now).Next? {
        PollSafe(st, now);
      }
    }
    var t := Latest(st.links);
    if Poll(st, t + 1).Next? {
      assert Sound(Links(st.links, st.index));
      ExpireNeeds(st.links, st.index, t + 1);
      assert Safe(Links(st.links, st.index));
    }
  }

  // ---------------------------------------------------------------------------
  // What keeps a state safe
  // ---------------------------------------------------------------------------

  ghost predicate Touch(l: Link, k: Link) {
    Endpoint(l.source, k) || Endpoint(l.target, k)
  }

  /** n is no loop, and no link of another pair holds either of its ports. */
  ghost predicate Free(st: State, n: Link) {
    n.source != n.target && forall k :: k in st.links && Touch(n, k) ==> Same(k, n.source, n.target)
  }

  lemma {:induction false} FreeKeeps(st: State, n: Link)
    requires Ordered(st.links) && Safe(st) && Free(st, n)
    ensures Safe(AddLink(st, n))
  {
    hide Ordered, Insert, Erase;
    AddLinkMembers(st, n);
    var st' := AddLink(st, n);
    forall l | l in st'.links
      ensures && l.source in st'.index && st'.index[l.source] == l && l.source != l.target
              && l.target in st'.index && st'.index[l.target] == l
    {
      assert l != n ==> l in st.links && !Touch(n, l);
    }
  }

  lemma {:induction false} FreeNeeded(st: State, n: Link)
    requires Ordered(st.links) && Safe(AddLink(st, n))
    ensures Free(st, n)
  {
    hide Ordered, Insert, Erase;
    AddLinkMembers(st, n);
    var st' := AddLink(st, n);
    assert n in st'.links;
    forall k | k in st.links && Touch(n, k) ensures Same(k, n.source, n.target) {
      if !Same(k, n.source, n.target) {
        assert k in st'.links;
        SameIfTouch(st', n, k);
      }
    }
  }

  // In a safe state links that share a port are the same.
  lemma {:induction false} SameIfTouch(st: State, l: Link, k: Link)
    requires Indexed(st) && l in st.links && k in st.links && Touch(l, k)
    ensures l == k
  {
  }

  /** Adding a link keeps a state safe exactly if its ports are free. */
  lemma {:induction false} AddLinkExactly(st: State, n: Link)
    requires Ordered(st.links) && Safe(st)
    ensures Safe(AddLink(st, n)) <==> Free(st, n)
  {
    hide Ordered, AddLink, Safe, Free;
    if Free(st, n) {
      FreeKeeps(st, n);
    }
    if Safe(AddLink(st, n)) {
      FreeNeeded(st, n);
    }
  }

  /** A beacon fails no CHECK in a safe state, and leaves it safe exactly if, in case it
      confirms a link, the ports of that link are free. */
  lemma {:induction false} BeaconExactly(st: State, from: Port, to: Port, until: int)
    requires Sound(st) && Safe(st)
    ensures var o := HandleBeacon(st, from, to, until);
            && o.Next?
            && (Safe(o.state) <==> (Has(st.waiting, to, from) ==> Free(st, Normal(Link(from, to, until)))))
  {
    hide Has, AddLink, AddWaiting, RemoveBroken, Free, Sound, Safe;
    var link := Link(from, to, until);
    if Has(st.waiting, to, from) {
      var st1, n := st.(waiting := Erase(st.waiting, to, from)), Normal(link);
      WaitingAside(st, st1, n);
      AddLinkExactly(st1, n);
      WaitingSafe(AddLink(st1, n), n);
    } else if Has(st.waiting, from, to) {
      WaitingSafe(st, link);
    } else {
      RemoveBrokenSafe(st, from);
      var st1 := RemoveBroken(st, from).state;
      RemoveBrokenSound(st, from);
      RemoveBrokenSafe(st1, to);
      WaitingSafe(RemoveBroken(st1, to).state, link);
    }
  }

  lemma {:induction false} WaitingSafe(st: State, l: Link)
    ensures Safe(AddWaiting(st, l)) <==> Safe(st)
  {
  }

  // Safety is about the links and the index only.
  lemma {:induction false} WaitingAside(st: State, st1: State, n: Link)
    requires Sound(st) && Safe(st) && st1.links == st.links && st1.index == st.index
    ensures Ordered(st1.links) && Safe(st1) && (Free(st1, n) <==> Free(st, n))
  {
  }

  // ---------------------------------------------------------------------------
  // Restoring saved links
  // ---------------------------------------------------------------------------

  /** l is one of the saved links whose switches are known. */
  ghost predicate Restores(saved: seq<(Port, Port)>, known: set<nat>, until: int, l: Link) {
    exists i :: && 0 <= i < |saved| && saved[i].0.dpid in known && saved[i].1.dpid in known
                && l == Normal(Link(saved[i].0, saved[i].1, until))
  }

  lemma {:induction false} RestoresLater(saved: seq<(Port, Port)>, known: set<nat>, until: int, l: Link)
    requires saved != []
    ensures Restores(saved, known, until, l) <==>
            || Restores(saved[1..], known, until, l)
            || (saved[0].0.dpid in known && saved[0].1.dpid in known && l == Normal(Link(saved[0].0, saved[0].1, until)))
  {
    hide Normal;
    var rest := saved[1..];
    if i :| && 0 <= i < |rest| && rest[i].0.dpid in known && rest[i].1.dpid in known
            && l == Normal(Link(rest[i].0, rest[i].1, until))
    {
      assert saved[i + 1] == rest[i];
    }
    if i :| && 0 < i < |saved| && saved[i].0.dpid in known && saved[i].1.dpid in known
            && l == Normal(Link(saved[i].0, saved[i].1, until))
    {
      assert rest[i - 1] == saved[i];
    }
  }

  lemma {:induction false} LoadMembers(st: State, saved: seq<(Port, Port)>, known: set<nat>, until: int, l: Link)
    requires Ordered(st.links) && forall k :: k in st.links ==> k.until == until
    ensures l in Load(st, saved, known, until).links <==> l in st.links || Restores(saved, known, until, l)
    decreases |saved|
  {
    hide Restores, AddLink, AddWaiting, Normal, Ordered;
    if saved == [] {
      NothingRestored(known, until, l);
    } else {
      RestoresLater(saved, known, until, l);
      var (from, to) := saved[0];
      if from.dpid in known && to.dpid in known {
        var n := Normal(Link(from, to, until));
        NormalUntil(Link(from, to, until));
        AddLinkMembers(st, n);
        WaitingKeepsLinks(AddLink(st, n), n);
        LoadMembers(AddWaiting(AddLink(st, n), n), saved[1..], known, until, l);
      } else {
        LoadMembers(st, saved[1..], known, until, l);
      }
    }
  }

  lemma {:induction false} NothingRestored(known: set<nat>, until: int, l: Link)
    ensures !Restores([], known, until, l)
  {
  }

  lemma {:induction false} NormalUntil(l: Link)
    ensures Normal(l).until == l.until
  {
  }

  lemma {:induction false} WaitingKeepsLinks(st: State, n: Link)
    ensures AddWaiting(st, n).links == st.links && AddWaiting(st, n).index == st.index
  {
  }

  /** Both ends of every link are indexed, to some link. */
  ghost predicate Covered(st: State) {
    forall l :: l in st.links ==> l.source in st.index && l.target in st.index
  }

  lemma {:induction false} LoadCovered(st: State, saved: seq<(Port, Port)>, known: set<nat>, until: int)
    requires Ordered(st.links) && Covered(st)
    ensures Covered(Load(st, saved, known, until))
    decreases |saved|
  {
    hide Ordered, Normal, Insert, Erase;
    if saved != [] {
      var (from, to) := saved[0];
      if from.dpid in known && to.dpid in known {
        var n := Normal(Link(from, to, until));
        AddLinkMembers(st, n);
        LoadCovered(AddWaiting(AddLink(st, n), n), saved[1..], known, until);
      } else {
        LoadCovered(st, saved[1..], known, until);
      }
    }
  }

  /** The saved links are a matching: none is a loop, and no two share a port. */
  ghost predicate Matching(saved: seq<(Port, Port)>, known: set<nat>, until: int) {
    && (forall l :: Restores(saved, known, until, l) ==> l.source != l.target)
    && forall l, k {:trigger Touch(l, k)} ::
         Restores(saved, known, until, l) && Restores(saved, known, until, k) && Touch(l, k) ==> l == k
  }

  ghost predicate Disjoint(st: State) {
    LoopFree(st) && forall l, k {:trigger Touch(l, k)} :: l in st.links && k in st.links && Touch(l, k) ==> l == k
  }

  lemma {:induction false} SafeIsDisjoint(st: State)
    requires Sound(st) && Covered(st)
    ensures Safe(st) <==> Disjoint(st)
  {
    hide Sound, Covered, Touch, Indexed;
    if Safe(st) {
      forall l, k | l in st.links && k in st.links && Touch(l, k) ensures l == k {
        SameIfTouch(st, l, k);
      }
    }
    if Disjoint(st) {
      DisjointIsIndexed(st);
    }
  }

  lemma {:induction false} DisjointIsIndexed(st: State)
    requires Sound(st) && Covered(st) && Disjoint(st)
    ensures Indexed(st)
  {
    hide Sound, Disjoint;
    forall l | l in st.links ensures st.index[l.source] == l && st.index[l.target] == l {
      IndexedAt(st, l, l.source);
      IndexedAt(st, l, l.target);
    }
  }

  lemma {:induction false} IndexedAt(st: State, l: Link, p: Port)
    requires Sound(st) && Disjoint(st) && l in st.links && Endpoint(p, l) && p in st.index
    ensures st.index[p] == l
  {
    hide Ordered;
    assert Touch(l, st.index[p]);
  }

  /** A reload ends in a safe state exactly if the saved links are a matching. */
  lemma {:induction false} RestoreExactly(saved: seq<(Port, Port)>, known: set<nat>, until: int)
    ensures SafeOutcome(Restore(saved, known, until)) <==> Matching(saved, known, until)
  {
    hide Restores, Load, Safe, Sound, Touch;
    var st := Load(EMPTY, saved, known, until);
    EmptySound();
    LoadSound(EMPTY, saved, known, until);
    forall l ensures l in st.links <==> Restores(saved, known, until, l) {
      LoadMembers(EMPTY, saved, known, until, l);
    }
    LoadCovered(EMPTY, saved, known, until);
    SafeIsDisjoint(st);
  }

  lemma {:induction false} LoadWaiting(st: State, saved: seq<(Port, Port)>, known: set<nat>, until: int, l: Link)
    requires Ordered(st.waiting) && forall k :: k in st.waiting ==> k.until == until
    ensures l in Load(st, saved, known, until).waiting <==> l in st.waiting || Restores(saved, known, until, l)
    decreases |saved|
  {
    hide Restores, AddWaiting, Normal, Ordered;
    if saved == [] {
      NothingRestored(known, until, l);
    } else {
      RestoresLater(saved, known, until, l);
      var (from, to) := saved[0];
      if from.dpid in known && to.dpid in known {
        var n := Normal(Link(from, to, until));
        NormalUntil(Link(from, to, until));
        AddWaitingMembers(AddLink(st, n), n);
        LoadWaiting(AddWaiting(AddLink(st, n), n), saved[1..], known, until, l);
      } else {
        LoadWaiting(st, saved[1..], known, until, l);
      }
    }
  }

  /** A reload forgets everything else: what is linked, and what waits, is exactly the saved links
      of known switches, all vouched for from now on; nothing is told. */
  lemma {:induction false} ReloadExactly(st: State, saved: seq<(Port, Port)>, known: set<nat>, now: int, hold: nat)
    ensures var o := Step(st, Reload(saved, known, now), hold);
            && o.Next? && o.signals == []
            && (forall l :: l in o.state.links <==> Restores(saved, known, now + hold, l))
            && (forall l :: l in o.state.waiting <==> Restores(saved, known, now + hold, l))
  {
    hide Restores, Load;
    var st' := Load(EMPTY, saved, known, now + hold);
    forall l ensures (l in st'.links <==> Restores(saved, known, now + hold, l))
                     && (l in st'.waiting <==> Restores(saved, known, now + hold, l)) {
      LoadMembers(EMPTY, saved, known, now + hold, l);
      LoadWaiting(EMPTY, saved, known, now + hold, l);
    }
  }

  // ---------------------------------------------------------------------------
  // Whole runs
  // ---------------------------------------------------------------------------

  /** What can be checked before an event: a beacon that would confirm a link finds its ports
      free, and saved links are a matching. */
  ghost predicate Admits(st: State, e: Event, hold: nat) {
    match e
    case Beacon(from, to, known, now) =>
      from.dpid in known && to.dpid in known && Has(st.waiting, to, from) ==> Free(st, Normal(Link(from, to, now + hold)))
    case Reload(saved, known, now) => Matching(saved, known, now + hold)
    case _ => true
  }

  /** From a safe state no event fails a CHECK, and exactly an admissible one leaves it safe. */
  lemma {:induction false} StepExactly(st: State, e: Event, hold: nat)
    requires Sound(st) && Safe(st)
    ensures Step(st, e, hold).Next?
    ensures Safe(Step(st, e, hold).state) <==> Admits(st, e, hold)
  {
    hide HandleBeacon, RemoveBroken, Poll, Safe, Free, Has, Matching, Sound;
    match e
    case Beacon(from, to, known, now) => BeaconExactly(st, from, to, now + hold);
    case PortDown(p, now) => RemoveBrokenSafe(st, p);
    case Tick(now) => PollSafe(st, now);
    case Reload(saved, known, now) => RestoreExactly(saved, known, now + hold);
  }

  ghost predicate AdmittedRun(es: seq<Event>, hold: nat) {
    es == [] || (var n := |es| - 1;
                 AdmittedRun(es[..n], hold) && Run(es[..n], hold).Next? && Admits(Run(es[..n], hold).state, es[n], hold))
  }

  /** At no point of the run would a poll, whenever it came, fail a CHECK. */
  ghost predicate PollsPass(es: seq<Event>, hold: nat) {
    && (es == [] || PollsPass(es[..|es| - 1], hold))
    && Run(es, hold).Next? && forall now :: Poll(Run(es, hold).state, now).Next?
  }

  /** However ports are wired, and whatever the clock readings: throughout a run no poll would
      fail a CHECK iff every event was admissible at its turn. */
  lemma {:induction false} PassExactly(es: seq<Event>, hold: nat)
    ensures PollsPass(es, hold) <==> AdmittedRun(es, hold)
    ensures AdmittedRun(es, hold) ==> SafeOutcome(Run(es, hold))
  {
    hide Poll, Step, Admits, Safe, Sound;
    RunSound(es, hold);
    if Run(es, hold).Next? {
      PollsPassExactly(Run(es, hold).state);
    }
    if es == [] {
      EmptySafe();
    } else {
      var n := |es| - 1;
      PassExactly(es[..n], hold);
      if Run(es[..n], hold).Next? && (AdmittedRun(es[..n], hold) || PollsPass(es[..n], hold)) {
        RunSound(es[..n], hold);
        StepExactly(Run(es[..n], hold).state, es[n], hold);
      }
    }
  }

  lemma {:induction false} EmptySafe()
    ensures Safe(EMPTY)
  {
  }

  // ---------------------------------------------------------------------------
  // Fixed cabling
  // ---------------------------------------------------------------------------

  ghost predicate Pairing(mate: Port -> Port) {
    forall p :: mate(mate(p)) == p && mate(p) != p
  }

  ghost predicate Cabled(st: State, mate: Port -> Port) {
    forall l :: l in st.links || l in st.waiting ==> l.target == mate(l.source)
  }

  ghost predicate CabledOutcome(o: Outcome, mate: Port -> Port) {
    o.Next? ==> Cabled(o.state, mate)
  }

  ghost predicate Wired(st: State, mate: Port -> Port) {
    Cabled(st, mate) && Safe(st)
  }

  ghost predicate WiredOutcome(o: Outcome, mate: Port -> Port) {
    o.Next? && Wired(o.state, mate)
  }

  ghost predicate Follows(e: Event, mate: Port -> Port) {
    match e
    case Beacon(from, to, _, _) => to == mate(from)
    case Reload(saved, _, _) => forall i :: 0 <= i < |saved| ==> saved[i].1 == mate(saved[i].0)
    case _ => true
  }

  ghost predicate AllFollow(es: seq<Event>, mate: Port -> Port) {
    Pairing(mate) && forall i :: 0 <= i < |es| ==> Follows(es[i], mate)
  }

  lemma {:induction false} NormalCabled(l: Link, mate: Port -> Port)
    requires Pairing(mate) && l.target == mate(l.source)
    ensures Normal(l).target == mate(Normal(l).source) && !Less(Normal(l).target, Normal(l).source)
  {
    assert mate(mate(l.source)) == l.source;
  }

  // Over one cable there is one link in normal order.
  lemma {:induction false} OneCable(n: Link, k: Link, mate: Port -> Port)
    requires Pairing(mate) && n.target == mate(n.source) && k.target == mate(k.source) && Touch(n, k)
    requires !Less(n.target, n.source) && !Less(k.target, k.source)
    ensures Same(k, n.source, n.target)
  {
    assert mate(mate(k.source)) == k.source && mate(mate(n.source)) == n.source;
  }

  /** Following a fixed pairing of the ports is enough for an event to be admissible. */
  lemma {:induction false} FollowingIsAdmitted(st: State, e: Event, hold: nat, mate: Port -> Port)
    requires Sound(st) && Cabled(st, mate) && Pairing(mate) && Follows(e, mate)
    ensures Admits(st, e, hold)
  {
    hide Ordered, Touch, Has, Normal;
    match e
    case Beacon(from, to, known, now) =>
      var n := Normal(Link(from, to, now + hold));
      NormalCabled(Link(from, to, now + hold), mate);
      assert mate(n.source) != n.source;
      forall k | k in st.links && Touch(n, k) ensures Same(k, n.source, n.target) {
        OneCable(n, k, mate);
      }
    case Reload(saved, known, now) => MatchingCables(saved, known, now + hold, mate);
    case _ =>
  }

  lemma {:induction false} RestoresCabled(saved: seq<(Port, Port)>, known: set<nat>, until: int, mate: Port -> Port, l: Link)
    requires Pairing(mate) && forall i :: 0 <= i < |saved| ==> saved[i].1 == mate(saved[i].0)
    requires Restores(saved, known, until, l)
    ensures l.target == mate(l.source) && !Less(l.target, l.source) && l.source != l.target && l.until == until
  {
    var i :| && 0 <= i < |saved| && saved[i].0.dpid in known && saved[i].1.dpid in known
             && l == Normal(Link(saved[i].0, saved[i].1, until));
    NormalCabled(Link(saved[i].0, saved[i].1, until), mate);
    assert mate(l.source) != l.source;
  }

  lemma {:induction false} MatchingCables(saved: seq<(Port, Port)>, known: set<nat>, until: int, mate: Port -> Port)
    requires Pairing(mate) && forall i :: 0 <= i < |saved| ==> saved[i].1 == mate(saved[i].0)
    ensures Matching(saved, known, until)
  {
    hide Restores, Pairing, Touch;
    forall l | Restores(saved, known, until, l) ensures l.source != l.target {
      RestoresCabled(saved, known, until, mate, l);
    }
    forall l, k | Restores(saved, known, until, l) && Restores(saved, known, until, k) && Touch(l, k) ensures l == k {
      RestoresCabled(saved, known, until, mate, l);
      RestoresCabled(saved, known, until, mate, k);
      OneCable(l, k, mate);
    }
  }

  lemma {:induction false} AddBothCabled(st: State, n: Link, mate: Port -> Port)
    requires Ordered(st.links) && Ordered(st.waiting) && Cabled(st, mate) && n.target == mate(n.source)
    ensures Cabled(AddWaiting(st, n), mate) && Cabled(AddWaiting(AddLink(st, n), n), mate)
  {
    hide Ordered, Insert, Erase;
    AddLinkMembers(st, n);
    AddWaitingMembers(st, n);
    AddWaitingMembers(AddLink(st, n), n);
  }

  lemma {:induction false} RemoveBrokenCabled(st: State, p: Port, mate: Port -> Port)
    requires Ordered(st.links) && Cabled(st, mate)
    ensures CabledOutcome(RemoveBroken(st, p), mate)
  {
    hide Ordered, Erase;
    if p in st.index {
      var l := st.index[p];
      EraseMembers(st.links, l.source, l.target);
      EraseMembers(st.links, l.target, l.source);
    }
  }

  lemma {:induction false} BeaconCabled(st: State, from: Port, to: Port, until: int, mate: Port -> Port)
    requires Sound(st) && Cabled(st, mate) && Pairing(mate) && to == mate(from)
    ensures CabledOutcome(HandleBeacon(st, from, to, until), mate)
  {
    hide Ordered, Erase, Has, RemoveBroken, AddLink, AddWaiting, Normal, Pairing;
    var link := Link(from, to, until);
    NormalCabled(link, mate);
    if Has(st.waiting, to, from) {
      EraseMembers(st.waiting, to, from);
      AddBothCabled(st.(waiting := Erase(st.waiting, to, from)), Normal(link), mate);
    } else if Has(st.waiting, from, to) {
      AddBothCabled(st, link, mate);
    } else {
      RemoveBrokenCabled(st, from, mate);
      RemoveBrokenSound(st, from);
      if RemoveBroken(st, from).Next? {
        var st1 := RemoveBroken(st, from).state;
        RemoveBrokenCabled(st1, to, mate);
        RemoveBrokenSound(st1, to);
        if RemoveBroken(st1, to).Next? {
          AddBothCabled(RemoveBroken(st1, to).state, link, mate);
        }
      }
    }
  }

  lemma {:induction false} PollCabled(st: State, now: int, mate: Port -> Port)
    requires Sound(st) && Cabled(st, mate)
    ensures CabledOutcome(Poll(st, now), mate)
  {
    hide Ordered, Expire, DropExpired;
    DropExpiredExact(st.links, now);
    DropExpiredExact(st.waiting, now);
    if Poll(st, now).Next? {
      LinkDiscovery.ExpireLinks(st.links, st.index, now);
    }
  }

  lemma {:induction false} LoadCabled(st: State, saved: seq<(Port, Port)>, known: set<nat>, until: int, mate: Port -> Port)
    requires Sound(st) && Cabled(st, mate) && Pairing(mate)
    requires forall i :: 0 <= i < |saved| ==> saved[i].1 == mate(saved[i].0)
    ensures Cabled(Load(st, saved, known, until), mate)
    decreases |saved|
  {
    hide Cabled, AddLink, AddWaiting, Normal, Pairing, Ordered;
    if saved != [] {
      var (from, to) := saved[0];
      var n := Normal(Link(from, to, until));
      NormalCabled(Link(from, to, until), mate);
      if from.dpid in known && to.dpid in known {
        AddLinkSound(st, n);
        AddWaitingSound(AddLink(st, n), n);
        AddBothCabled(st, n, mate);
        LoadCabled(AddWaiting(AddLink(st, n), n), saved[1..], known, until, mate);
      } else {
        LoadCabled(st, saved[1..], known, until, mate);
      }
    }
  }

  lemma {:induction false} EmptyCabled(mate: Port -> Port)
    ensures Cabled(EMPTY, mate)
  {
  }

  lemma {:induction false} StepCabled(st: State, e: Event, hold: nat, mate: Port -> Port)
    requires Sound(st) && Cabled(st, mate) && Pairing(mate) && Follows(e, mate)
    ensures CabledOutcome(Step(st, e, hold), mate)
  {
    hide HandleBeacon, RemoveBroken, Poll, Load, Cabled, Pairing, Ordered;
    match e
    case Beacon(from, to, known, now) => BeaconCabled(st, from, to, now + hold, mate);
    case PortDown(p, _) => RemoveBrokenCabled(st, p, mate);
    case Tick(now) => PollCabled(st, now, mate);
    case Reload(saved, known, now) =>
      EmptySound();
      EmptyCabled(mate);
      LoadCabled(EMPTY, saved, known, now + hold, mate);
  }

  /** In every run whose beacons and saved links follow a fixed pairing of the ports, every
      event is admissible: no CHECK ever fails and every link is indexed from both its ends. */
  lemma {:induction false} RunWired(es: seq<Event>, hold: nat, mate: Port -> Port)
    requires AllFollow(es, mate)
    ensures WiredOutcome(Run(es, hold), mate) && AdmittedRun(es, hold)
  {
    hide Step, Admits, Safe, Cabled, Follows;
    PassExactly(es, hold);
    if es == [] {
      EmptyCabled(mate);
    } else {
      var n := |es| - 1;
      RunWired(es[..n], hold, mate);
      RunSound(es[..n], hold);
      var st := Run(es[..n], hold).state;
      assert Follows(es[n], mate);
      FollowingIsAdmitted(st, es[n], hold, mate);
      StepCabled(st, es[n], hold, mate);
    }
  }

  /** The index maps exactly the ends of the current links, each to its own link. */
  lemma {:induction false} RunIndexExact(es: seq<Event>, hold: nat, mate: Port -> Port, p: Port)
    requires AllFollow(es, mate)
    ensures Run(es, hold).Next?
    ensures var st := Run(es, hold).state;
            && (p in st.index <==> exists l :: l in st.links && Endpoint(p, l))
            && forall l :: l in st.links && Endpoint(p, l) ==> p in st.index && st.index[p] == l
  {
    RunWired(es, hold, mate);
    RunSound(es, hold);
    var st := Run(es, hold).state;
    assert Sound(st) && Indexed(st);
  }

  /** Under the same assumption `other` passes its CHECK and is an involution on the linked
      ports; it answers 0:0 for the rest. */
  lemma {:induction false} OtherInvolutive(es: seq<Event>, hold: nat, mate: Port -> Port, p: Port)
    requires AllFollow(es, mate)
    ensures Run(es, hold).Next?
    ensures var st := Run(es, hold).state;
            if p in st.index then
              Other(st, p) == Reply(mate(p)) && mate(p) in st.index && Other(st, mate(p)) == Reply(p)
            else
              Other(st, p) == Reply(Port(0, 0))
  {
    RunWired(es, hold, mate);
    RunSound(es, hold);
    var st := Run(es, hold).state;
    assert mate(mate(p)) == p;
    if p in st.index {
      OtherEnd(st, p, mate);
    }
  }

  lemma {:induction false} OtherEnd(st: State, p: Port, mate: Port -> Port)
    requires Sound(st) && Wired(st, mate) && Pairing(mate) && p in st.index
    ensures mate(p) in st.index && Other(st, p) == Reply(mate(p)) && Other(st, mate(p)) == Reply(p)
  {
    var l := st.index[p];
    assert mate(mate(l.source)) == l.source && mate(p) != p;
    HasMember(st.links, l.source, l.target);
  }

  ghost predicate BreaksNothing(o: Outcome) {
    o.Next? ==> forall x :: x in o.signals ==> x.Discovered?
  }

  // A port with neither direction waiting is not indexed.
  lemma {:induction false} NoLinkAt(st: State, p: Port, mate: Port -> Port)
    requires Sound(st) && Shadowed(st) && Cabled(st, mate) && Pairing(mate)
    requires !Has(st.waiting, p, mate(p)) && !Has(st.waiting, mate(p), p)
    ensures p !in st.index
  {
    if p in st.index {
      var l := st.index[p];
      assert Covers(st.waiting, l);
      assert mate(mate(l.source)) == l.source;
      HasMember(st.waiting, l.source, l.target);
    }
  }

  lemma {:induction false} BeaconBreaksNothing(st: State, from: Port, to: Port, until: int, mate: Port -> Port)
    requires Sound(st) && Shadowed(st) && Cabled(st, mate) && Pairing(mate) && to == mate(from)
    ensures BreaksNothing(HandleBeacon(st, from, to, until))
  {
    assert mate(mate(from)) == from;
    if !Has(st.waiting, to, from) && !Has(st.waiting, from, to) {
      NoLinkAt(st, from, mate);
      NoLinkAt(st, to, mate);
    }
  }

  /** With fixed cabling and every event in time, a beacon never breaks a link, at any point of
      any run: a link at either port would be shadowed. */
  lemma {:induction false} BeaconsBreakNothing(es: seq<Event>, e: Event, hold: nat, mate: Port -> Port)
    requires AllFollow(es + [e], mate) && InTimeRun(es, hold) && e.Beacon?
    ensures Run(es, hold).Next? && BreaksNothing(Step(Run(es, hold).state, e, hold))
  {
    hide HandleBeacon, Ordered, InTimeRun;
    var all := es + [e];
    assert all[|es|] == e;
    assert forall i :: 0 <= i < |es| ==> all[i] == es[i];
    RunWired(es, hold, mate);
    RunSound(es, hold);
    ShadowExactly(es, hold);
    assert Follows(all[|es|], mate);
    BeaconBreaksNothing(Run(es, hold).state, e.from, e.to, e.now + hold, mate);
  }

  /** Some waiting entry of the cable, in either direction, lasts as long as the link. */
  ghost predicate Vouched(waiting: seq<Link>, l: Link) {
    exists w :: w in waiting && (Same(w, l.source, l.target) || Same(w, l.target, l.source)) && w.until >= l.until
  }

  /** A poll at some time and then a beacon over some cable break nothing by the beacon. */
  ghost predicate NoneBroken(st: State, from: Port, until: int, now: int, mate: Port -> Port) {
    Poll(st, now).Next? ==> BreaksNothing(HandleBeacon(Poll(st, now).state, from, mate(from), until))
  }

  // A beacon finds the link of its cable with neither direction waiting, and breaks it.
  lemma {:induction false} BeaconBreaks(st: State, l: Link, until: int)
    requires Sound(st) && Safe(st) && l in st.links
    requires !Has(st.waiting, l.source, l.target) && !Has(st.waiting, l.target, l.source)
    ensures !BreaksNothing(HandleBeacon(st, l.source, l.target, until))
  {
    BeaconExactly(st, l.source, l.target, until);
    RemoveBrokenSafe(st, l.source);
    HasMember(st.links, l.source, l.target);
    var o := HandleBeacon(st, l.source, l.target, until);
    assert o.signals[0] == Broken(l.source, l.target);
    assert o.signals[0] in o.signals;
  }

  lemma {:induction false} PollMembers(st: State, now: int)
    requires Sound(st) && Poll(st, now).Next?
    ensures var st' := Poll(st, now).state;
            && (forall x :: x in st'.links <==> x in st.links && Alive(x, now))
            && (forall x :: x in st'.waiting <==> x in st.waiting && Alive(x, now))
  {
    hide Ordered, Expire, DropExpired;
    DropExpiredExact(st.links, now);
    DropExpiredExact(st.waiting, now);
    LinkDiscovery.ExpireLinks(st.links, st.index, now);
  }

  lemma {:induction false} VouchedHas(waiting: seq<Link>, l: Link)
    requires Vouched(waiting, l)
    ensures Has(waiting, l.source, l.target) || Has(waiting, l.target, l.source)
  {
    HasMember(waiting, l.source, l.target);
    HasMember(waiting, l.target, l.source);
  }

  lemma {:induction false} VouchedIsSafe(st: State, from: Port, until: int, now: int, mate: Port -> Port)
    requires Sound(st) && Wired(st, mate) && Pairing(mate) && forall l :: l in st.links ==> Vouched(st.waiting, l)
    ensures NoneBroken(st, from, until, now, mate)
  {
    hide HandleBeacon, Poll, Ordered, Safe;
    PollSafe(st, now);
    PollSound(st, now);
    PollMembers(st, now);
    var st', to := Poll(st, now).state, mate(from);
    assert mate(to) == from;
    forall l | l in st'.links && Endpoint(from, l) ensures Has(st'.waiting, from, to) || Has(st'.waiting, to, from) {
      assert mate(mate(l.source)) == l.source;
      var w :| w in st.waiting && (Same(w, l.source, l.target) || Same(w, l.target, l.source)) && w.until >= l.until;
      assert w in st'.waiting;
      assert Vouched(st'.waiting, l);
      VouchedHas(st'.waiting, l);
    }
    UnlinkedBeacon(st', from, until, mate);
  }

  lemma {:induction false} UnlinkedBeacon(st: State, from: Port, until: int, mate: Port -> Port)
    requires Sound(st) && Pairing(mate)
    requires forall l :: l in st.links ==> l.target == mate(l.source)
    requires forall l :: l in st.links && Endpoint(from, l) ==> Has(st.waiting, from, mate(from)) || Has(st.waiting, mate(from), from)
    ensures BreaksNothing(HandleBeacon(st, from, mate(from), until))
  {
    var to := mate(from);
    assert mate(to) == from;
    if !Has(st.waiting, from, to) && !Has(st.waiting, to, from) {
      forall l | l in st.links ensures !Endpoint(from, l) && !Endpoint(to, l) {
        assert mate(mate(l.source)) == l.source;
      }
    }
  }

  lemma {:induction false} UnvouchedBreaks(st: State, l: Link, mate: Port -> Port)
    requires Sound(st) && Wired(st, mate) && l in st.links && !Vouched(st.waiting, l)
    ensures !NoneBroken(st, l.source, 0, l.until, mate)
  {
    hide HandleBeacon, Poll, Ordered, Safe;
    var now := l.until;
    PollSafe(st, now);
    PollSound(st, now);
    PollMembers(st, now);
    var st' := Poll(st, now).state;
    assert l in st'.links;
    HasMember(st'.waiting, l.source, l.target);
    HasMember(st'.waiting, l.target, l.source);
    forall w | w in st'.waiting ensures !Same(w, l.source, l.target) && !Same(w, l.target, l.source) {
      assert w in st.waiting && Alive(w, now);
    }
    BeaconBreaks(st', l, 0);
  }

  /** With fixed cabling: no poll followed by a beacon, whenever they come, breaks a link by the
      beacon iff every link has a waiting entry of its cable that lasts as long. */
  lemma {:induction false} BreaksExactly(st: State, mate: Port -> Port)
    requires Sound(st) && Wired(st, mate) && Pairing(mate)
    ensures (forall from, until, now :: NoneBroken(st, from, until, now, mate)) <==>
            forall l :: l in st.links ==> Vouched(st.waiting, l)
  {
    hide NoneBroken, Vouched, Sound, Wired;
    if forall l :: l in st.links ==> Vouched(st.waiting, l) {
      forall from, until, now ensures NoneBroken(st, from, until, now, mate) {
        VouchedIsSafe(st, from, until, now, mate);
      }
    } else {
      var l :| l in st.links && !Vouched(st.waiting, l);
      UnvouchedBreaks(st, l, mate);
    }
  }

  // ---------------------------------------------------------------------------
  // What happens without fixed cabling
  // ---------------------------------------------------------------------------

  const PORT_A := Port(1, 1)
  const PORT_B := Port(2, 1)
  const PORT_C := Port(3, 1)
  const LINK_AB := Link(PORT_A, PORT_B, 10)
  const LINK_AC := Link(PORT_A, PORT_C, 10)

  function Seen(from: Port, to: Port): Event {
    Beacon(from, to, {1, 2, 3}, 0)
  }

  ghost predicate Reaches(es: seq<Event>, st: State) {
    Run(es, 10).Next? && Run(es, 10).state == st
  }

  lemma {:induction false} BeaconReaches(es: seq<Event>, from: Port, to: Port, st: State, st': State, out: seq<Signal>)
    requires Reaches(es, st) && {from.dpid, to.dpid} <= {1, 2, 3}
    requires HandleBeacon(st, from, to, 10) == Next(st', out)
    ensures Reaches(es + [Seen(from, to)], st')
  {
    var all := es + [Seen(from, to)];
    assert all[..|all| - 1] == es;
    assert Step(st, Seen(from, to), 10) == Receive(st, from, to, {1, 2, 3}, 10);
  }

  // The states along the run below.
  const REWIRED_1 := State([], [LINK_AB], map[])
  const REWIRED_2 := State([LINK_AB], [LINK_AB], map[PORT_A := LINK_AB, PORT_B := LINK_AB])
  const REWIRED_3 := State([], [LINK_AB, LINK_AC], map[])
  const REWIRED_4 := State([LINK_AB], [LINK_AB, LINK_AC], map[PORT_A := LINK_AB, PORT_B := LINK_AB])
  const REWIRED_5 := State([LINK_AB, LINK_AC], [LINK_AB, LINK_AC], map[PORT_A := LINK_AC, PORT_B := LINK_AB, PORT_C := LINK_AC])

  lemma {:induction false} FirstBeacons()
    ensures HandleBeacon(EMPTY, PORT_A, PORT_B, 10) == Next(REWIRED_1, [])
    ensures HandleBeacon(REWIRED_1, PORT_B, PORT_A, 10) == Next(REWIRED_2, [Discovered(PORT_A, PORT_B)])
  {
    assert Erase([LINK_AB], PORT_A, PORT_B) == [];
  }

  lemma {:induction false} RewiredBeacon()
    ensures HandleBeacon(REWIRED_2, PORT_A, PORT_C, 10) == Next(REWIRED_3, [Broken(PORT_A, PORT_B)])
  {
    assert [LINK_AB][1..] == [];
    assert !Has([LINK_AB], PORT_C, PORT_A) && !Has([LINK_AB], PORT_A, PORT_C) && Has([LINK_AB], PORT_A, PORT_B);
    assert RemoveBroken(REWIRED_2, PORT_A) == Next(State([], [LINK_AB], map[]), [Broken(PORT_A, PORT_B)]) by {
      assert Erase([LINK_AB], PORT_A, PORT_B) == [];
      assert REWIRED_2.index - {PORT_A, PORT_B} == map[];
    }
    assert Insert([LINK_AB], LINK_AC) == [LINK_AB, LINK_AC];
  }

  lemma {:induction false} SecondBeacon()
    ensures HandleBeacon(REWIRED_3, PORT_B, PORT_A, 10) == Next(REWIRED_4, [Discovered(PORT_A, PORT_B)])
  {
    assert [LINK_AC][1..] == [];
    assert Erase([LINK_AB, LINK_AC], PORT_A, PORT_B) == [LINK_AC];
    assert Erase([LINK_AC], PORT_A, PORT_B) == [LINK_AC];
    assert Insert([LINK_AC], LINK_AB) == [LINK_AB, LINK_AC];
  }

  lemma {:induction false} ThirdBeacon()
    ensures HandleBeacon(REWIRED_4, PORT_C, PORT_A, 10) == Next(REWIRED_5, [Discovered(PORT_A, PORT_C)])
  {
    assert [LINK_AB, LINK_AC][1..] == [LINK_AC] && [LINK_AC][1..] == [] && [LINK_AB][1..] == [];
    assert Find([LINK_AC], PORT_A, PORT_C) == 0 && Find([LINK_AB, LINK_AC], PORT_A, PORT_C) == 1;
    assert Erase([LINK_AB, LINK_AC], PORT_A, PORT_C) == [LINK_AB];
    assert Erase([LINK_AB], PORT_A, PORT_C) == [LINK_AB];
    assert Insert([LINK_AB], LINK_AC) == [LINK_AB, LINK_AC];
  }

  lemma {:induction false} FinalPoll()
    ensures Poll(REWIRED_5, 11) == Crash
  {
    assert REWIRED_5.links[1..] == [LINK_AC] && [LINK_AC][0] == LINK_AC;
    assert PORT_A !in REWIRED_5.index - {PORT_A, PORT_B};
    assert Expire([LINK_AC], REWIRED_5.index - {PORT_A, PORT_B}, 11) == Crash;
    assert Expire(REWIRED_5.links, REWIRED_5.index, 11) == Crash;
  }

  /** Without fixed cabling the CHECKs can fail: PORT_A is wired to PORT_B, then to PORT_C, and both links
      come to hold PORT_A, whose index entry can be erased only once. */
  lemma {:induction false} MiswiringCrashes()
    ensures exists es: seq<Event>, hold: nat :: LockOrder(es) && NoReload(es) && Run(es, hold) == Crash
  {
    hide HandleBeacon, Poll;
    var e1 := [Seen(PORT_A, PORT_B)];
    var e2 := e1 + [Seen(PORT_B, PORT_A)];
    var e3 := e2 + [Seen(PORT_A, PORT_C)];
    var e4 := e3 + [Seen(PORT_B, PORT_A)];
    var e5 := e4 + [Seen(PORT_C, PORT_A)];
    var e6 := e5 + [Tick(11)];
    assert Reaches(e5, REWIRED_5) by {
      FirstBeacons();
      assert [] + e1 == e1;
      BeaconReaches([], PORT_A, PORT_B, EMPTY, REWIRED_1, []);
      BeaconReaches(e1, PORT_B, PORT_A, REWIRED_1, REWIRED_2, [Discovered(PORT_A, PORT_B)]);
      RewiredBeacon();
      BeaconReaches(e2, PORT_A, PORT_C, REWIRED_2, REWIRED_3, [Broken(PORT_A, PORT_B)]);
      SecondBeacon();
      ThirdBeacon();
      BeaconReaches(e3, PORT_B, PORT_A, REWIRED_3, REWIRED_4, [Discovered(PORT_A, PORT_B)]);
      BeaconReaches(e4, PORT_C, PORT_A, REWIRED_4, REWIRED_5, [Discovered(PORT_A, PORT_C)]);
    }
    FinalPoll();
    assert e6[..|e6| - 1] == e5;
    assert Step(REWIRED_5, Tick(11), 10) == Crash;
    assert Run(e6, 10) == Crash;
    assert LockOrder(e6) && NoReload(e6);
  }

  // ---------------------------------------------------------------------------
  // What happens when the clock is read in another order than the lock is taken
  // ---------------------------------------------------------------------------

  /** A fixed pairing under which PORT_A and PORT_B are the ends of a cable. */
  function NextDoor(p: Port): Port {
    if p.dpid == 0 then Port(0, if p.port % 2 == 0 then p.port + 1 else p.port - 1)
    else Port(if p.dpid % 2 == 1 then p.dpid + 1 else p.dpid - 1, p.port)
  }

  lemma {:induction false} StepReaches(es: seq<Event>, e: Event, st: State, st': State, out: seq<Signal>)
    requires Reaches(es, st) && Step(st, e, 10) == Next(st', out)
    ensures Reaches(es + [e], st')
  {
    var all := es + [e];
    assert all[..|all| - 1] == es;
  }

  const EARLY_AB := Link(PORT_A, PORT_B, 9)
  const LATE_1 := REWIRED_2.(waiting := [EARLY_AB])
  const LATE_2 := REWIRED_2.(waiting := [])

  lemma {:induction false} LateBeacon()
    ensures HandleBeacon(REWIRED_2, PORT_A, PORT_B, 9) == Next(LATE_1, [])
    ensures Poll(LATE_1, 10) == Next(LATE_2, [])
  {
    assert [LINK_AB][1..] == [] && [EARLY_AB][1..] == [];
    assert !Has([LINK_AB], PORT_B, PORT_A) && Has([LINK_AB], PORT_A, PORT_B);
    assert Erase([LINK_AB], PORT_A, PORT_B) == [];
    assert Insert([], EARLY_AB) == [EARLY_AB];
    assert DropExpired([EARLY_AB], 10) == [];
    assert Expire([LINK_AB], LATE_1.index, 10) == Next(State([LINK_AB], [], LATE_1.index), []);
  }

  lemma {:induction false} LateRun(es: seq<Event>)
    requires es == [Seen(PORT_A, PORT_B), Seen(PORT_B, PORT_A), Beacon(PORT_A, PORT_B, {1, 2, 3}, -1), Tick(10)]
    ensures Reaches(es, LATE_2)
  {
    hide HandleBeacon, Poll;
    var e1 := [] + [Seen(PORT_A, PORT_B)];
    var e2 := e1 + [Seen(PORT_B, PORT_A)];
    var late := Beacon(PORT_A, PORT_B, {1, 2, 3}, -1);
    FirstBeacons();
    LateBeacon();
    BeaconReaches([], PORT_A, PORT_B, EMPTY, REWIRED_1, []);
    BeaconReaches(e1, PORT_B, PORT_A, REWIRED_1, REWIRED_2, [Discovered(PORT_A, PORT_B)]);
    StepReaches(e2, late, REWIRED_2, LATE_1, []);
    StepReaches(e2 + [late], Tick(10), LATE_1, LATE_2, []);
    assert es == e2 + [late] + [Tick(10)];
  }

  lemma {:induction false} NextDoorPairs()
    ensures Pairing(NextDoor) && NextDoor(PORT_A) == PORT_B && NextDoor(PORT_B) == PORT_A
  {
  }

  ghost predicate Quiet(es: seq<Event>) {
    forall i :: 0 <= i < |es| ==> !es[i].PortDown? && !es[i].Reload?
  }

  lemma {:induction false} LateFollows(es: seq<Event>, e: Event)
    requires es == [Seen(PORT_A, PORT_B), Seen(PORT_B, PORT_A), Beacon(PORT_A, PORT_B, {1, 2, 3}, -1), Tick(10)]
    requires e == Beacon(PORT_A, PORT_B, {1, 2, 3}, 10)
    ensures AllFollow(es, NextDoor) && AllFollow(es + [e], NextDoor) && Quiet(es)
  {
    NextDoorPairs();
    hide NextDoor, Pairing;
  }

  /** A beacon that read the clock before another and took the lock after it shortens the waiting
      entry; a poll drops the entry and keeps the link; and the next beacon over the very cable of
      the link breaks it, although the cabling is fixed and no port went down. */
  lemma {:induction false} LateBeaconBreaks() returns (es: seq<Event>, e: Event)
    ensures AllFollow(es + [e], NextDoor) && Quiet(es) && e.Beacon?
    ensures Run(es, 10).Next? && !BreaksNothing(Step(Run(es, 10).state, e, 10)) && !InTimeRun(es, 10)
  {
    hide HandleBeacon, Poll, Sound, Safe, InTimeRun, AllFollow, Quiet, NextDoor, Run, BreaksNothing, Has;
    es := [Seen(PORT_A, PORT_B), Seen(PORT_B, PORT_A), Beacon(PORT_A, PORT_B, {1, 2, 3}, -1), Tick(10)];
    e := Beacon(PORT_A, PORT_B, {1, 2, 3}, 10);
    LateFollows(es, e);
    LateRun(es);
    RunWired(es, 10, NextDoor);
    RunSound(es, 10);
    NothingWaits();
    BeaconBreaks(LATE_2, LINK_AB, 20);
    if InTimeRun(es, 10) {
      BeaconsBreakNothing(es, e, 10, NextDoor);
    }
  }

  lemma {:induction false} NothingWaits()
    ensures !Has([], PORT_A, PORT_B) && !Has([], PORT_B, PORT_A)
  {
  }
}
