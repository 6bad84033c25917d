/** Link discovery by beacons (src/core/LinkDiscovery.cc and .hpp).

    Three containers must agree: the links, ordered by expiry; the half-seen "waiting"
    links, ordered the same way; and an index from ports to links.  An ordered std::set is
    a strictly sorted sequence, an iterator into it is the element it points at, and a
    failed CHECK is the outcome `Crash`. */
module LinkDiscovery {

  datatype Port = Port(dpid: nat, port: nat)

  predicate Less(a: Port, b: Port) {
    a.dpid < b.dpid || (a.dpid == b.dpid && a.port < b.port)
  }

  datatype Link = Link(source: Port, target: Port, until: int)

  predicate LinkLess(a: Link, b: Link) {
    a.until < b.until
    || (a.until == b.until && (Less(a.source, b.source) || (a.source == b.source && Less(a.target, b.target))))
  }

  predicate Same(l: Link, s: Port, t: Port) {
    l.source == s && l.target == t
  }

  datatype Signal = Discovered(from: Port, to: Port) | Broken(from: Port, to: Port)

  datatype State = State(links: seq<Link>, waiting: seq<Link>, index: map<Port, Link>)

  datatype Outcome = Crash | Next(state: State, signals: seq<Signal>)

  const EMPTY := State([], [], map[])

  // ---------------------------------------------------------------------------
  // The ordered containers
  // ---------------------------------------------------------------------------

  function Find(s: seq<Link>, a: Port, b: Port): (i: nat)
    ensures i <= |s|
  {
    if s == [] || Same(s[0], a, b) then 0 else 1 + Find(s[1..], a, b)
  }

  lemma {:induction false} FindFirst(s: seq<Link>, a: Port, b: Port)
    ensures var i := Find(s, a, b);
            && (i < |s| ==> Same(s[i], a, b))
            && forall j :: 0 <= j < i ==> !Same(s[j], a, b)
  {
    if s != [] && !Same(s[0], a, b) {
      FindFirst(s[1..], a, b);
    }
  }

  predicate Has(s: seq<Link>, a: Port, b: Port) {
    Find(s, a, b) < |s|
  }

  function Erase(s: seq<Link>, a: Port, b: Port): seq<Link> {
    var i := Find(s, a, b);
    if i < |s| then s[..i] + s[i + 1..] else s
  }

  function Insert(s: seq<Link>, l: Link): seq<Link> {
    if s == [] then [l]
    else if LinkLess(s[0], l) then [s[0]] + Insert(s[1..], l)
    else if s[0] == l then s
    else [l] + s
  }

  ghost predicate Ordered(s: seq<Link>) {
    && (forall i, j :: 0 <= i < j < |s| ==> LinkLess(s[i], s[j]))
    && (forall i, j :: 0 <= i < j < |s| ==> !Same(s[i], s[j].source, s[j].target))
  }

  lemma {:induction false} HasMember(s: seq<Link>, a: Port, b: Port)
    ensures Has(s, a, b) <==> exists l :: l in s && Same(l, a, b)
  {
    FindFirst(s, a, b);
    if l :| l in s && Same(l, a, b) {
      var j :| 0 <= j < |s| && s[j] == l;
    }
  }

  lemma {:induction false} EraseOrdered(s: seq<Link>, a: Port, b: Port)
    requires Ordered(s)
    ensures Ordered(Erase(s, a, b))
  {
    hide LinkLess, Same;
    var i, q := Find(s, a, b), Erase(s, a, b);
    if i < |s| {
      assert forall j :: 0 <= j < |q| ==> q[j] == s[if j < i then j else j + 1];
    }
  }

  lemma {:induction false} EraseKeepsOthers(s: seq<Link>, a: Port, b: Port, x: Link)
    requires x in s && !Same(x, a, b)
    ensures x in Erase(s, a, b)
  {
    FindFirst(s, a, b);
    var i, q := Find(s, a, b), Erase(s, a, b);
    var j :| 0 <= j < |s| && s[j] == x;
    assert i < |s| && j < i ==> q[j] == x;
    assert i < |s| && j > i ==> q[j - 1] == x;
  }

  lemma {:induction false} EraseTakesPair(s: seq<Link>, a: Port, b: Port, x: Link)
    requires Ordered(s) && x in Erase(s, a, b)
    ensures x in s && !Same(x, a, b)
  {
    FindFirst(s, a, b);
    hide LinkLess;
    var i, q := Find(s, a, b), Erase(s, a, b);
    var j :| 0 <= j < |q| && q[j] == x;
    if i < |s| {
      assert q[j] == s[if j < i then j else j + 1];
    }
  }

  lemma {:induction false} EraseMembers(s: seq<Link>, a: Port, b: Port)
    requires Ordered(s)
    ensures Ordered(Erase(s, a, b))
    ensures forall x :: x in Erase(s, a, b) <==> x in s && !Same(x, a, b)
  {
    hide Ordered, Erase, Same;
    EraseOrdered(s, a, b);
    forall x ensures x in Erase(s, a, b) <==> x in s && !Same(x, a, b) {
      if x in s && !Same(x, a, b) {
        EraseKeepsOthers(s, a, b, x);
      }
      if x in Erase(s, a, b) {
        EraseTakesPair(s, a, b, x);
      }
    }
  }

  lemma {:induction false} InsertMembers(s: seq<Link>, l: Link)
    ensures forall x :: x in Insert(s, l) <==> x in s || x == l
  {
    if s != [] && LinkLess(s[0], l) {
      InsertMembers(s[1..], l);
      assert s == [s[0]] + s[1..];
    }
  }

  lemma {:induction false} InsertOrdered(s: seq<Link>, l: Link)
    requires Ordered(s) && forall x :: x in s ==> !Same(x, l.source, l.target)
    ensures Ordered(Insert(s, l))
  {
    if s != [] && LinkLess(s[0], l) {
      InsertOrdered(s[1..], l);
      InsertMembers(s[1..], l);
      var r := Insert(s[1..], l);
      forall j | 0 <= j < |r| ensures LinkLess(s[0], r[j]) && !Same(s[0], r[j].source, r[j].target) {
        assert r[j] in r;
      }
    } else if s != [] {
      assert s[0] in s;
      forall j | 0 <= j < |s| ensures LinkLess(l, s[j]) && !Same(l, s[j].source, s[j].target) {
        assert s[j] in s;
      }
    }
  }

  // ---------------------------------------------------------------------------
  // The operations
  // ---------------------------------------------------------------------------

  function Normal(l: Link): Link {
    if Less(l.target, l.source) then Link(l.target, l.source, l.until) else l
  }

  function AddLink(st: State, n: Link): State {
    st.(links := Insert(Erase(st.links, n.source, n.target), n),
        index := st.index[n.source := n][n.target := n])
  }

  function AddWaiting(st: State, l: Link): State {
    st.(waiting := Insert(Erase(st.waiting, l.source, l.target), l))
  }

  /** Both CHECKs that an index erase removed exactly one entry. */
  predicate Erasable(index: map<Port, Link>, a: Port, b: Port) {
    a in index && b in index && a != b
  }

  function RemoveLink(st: State, a: Port, b: Port): Outcome {
    var (s, t) := if Less(b, a) then (b, a) else (a, b);
    if !Has(st.links, s, t) || !Erasable(st.index, s, t) then Crash
    else Next(st.(links := Erase(st.links, s, t), index := st.index - {s, t}), [Broken(s, t)])
  }

  function RemoveBroken(st: State, p: Port): Outcome {
    if p !in st.index then Next(st, [])
    else
      var l := st.index[p];
      if l.target !in st.index then Crash else RemoveLink(st, l.source, l.target)
  }

  function HandleBeacon(st: State, from: Port, to: Port, until: int): Outcome {
    var link := Link(from, to, until);
    if Has(st.waiting, to, from) then
      var n := Normal(link);
      var st1 := st.(waiting := Erase(st.waiting, to, from));
      Next(AddWaiting(AddLink(st1, n), n),
           if Has(st.links, n.source, n.target) then [] else [Discovered(n.source, n.target)])
    else if Has(st.waiting, from, to) then
      Next(AddWaiting(st, link), [])
    else
      match RemoveBroken(st, from)
      case Crash => Crash
      case Next(st1, out1) =>
        match RemoveBroken(st1, to)
        case Crash => Crash
        case Next(st2, out2) => Next(AddWaiting(st2, link), out1 + out2)
  }

  /** The first polling loop: drop from the front while the front is expired. */
  function Expire(links: seq<Link>, index: map<Port, Link>, now: int): Outcome {
    if links == [] || links[0].until >= now then Next(State(links, [], index), [])
    else
      var s, t := links[0].source, links[0].target;
      if !Erasable(index, s, t) then Crash
      else
        match Expire(links[1..], index - {s, t}, now)
        case Crash => Crash
        case Next(st, out) => Next(st, [Broken(s, t)] + out)
  }

  function DropExpired(s: seq<Link>, now: int): seq<Link> {
    if s == [] || s[0].until >= now then s else DropExpired(s[1..], now)
  }

  function Poll(st: State, now: int): Outcome {
    match Expire(st.links, st.index, now)
    case Crash => Crash
    case Next(st', out) => Next(st'.(waiting := DropExpired(st.waiting, now)), out)
  }

  function Load(st: State, saved: seq<(Port, Port)>, known: set<nat>, until: int): State
    decreases |saved|
  {
    if saved == [] then st
    else
      var (from, to) := saved[0];
      var n := Normal(Link(from, to, until));
      var st' := if from.dpid in known && to.dpid in known then AddWaiting(AddLink(st, n), n) else st;
      Load(st', saved[1..], known, until)
  }

  /** A beacon seen at `to`, a port going down, a poll of the primary, or a reload of the
      saved links (recovery, or a poll of a backup), each at some time. */
  datatype Event =
    | Beacon(from: Port, to: Port, known: set<nat>, now: int)
    | PortDown(port: Port, now: int)
    | Tick(now: int)
    | Reload(saved: seq<(Port, Port)>, known: set<nat>, now: int)

  /** Beacons that name a switch of another network are ignored. */
  function Receive(st: State, from: Port, to: Port, known: set<nat>, until: int): Outcome {
    if from.dpid in known && to.dpid in known then HandleBeacon(st, from, to, until) else Next(st, [])
  }

  function Restore(saved: seq<(Port, Port)>, known: set<nat>, until: int): Outcome {
    Next(Load(EMPTY, saved, known, until), [])
  }

  function Step(st: State, e: Event, hold: nat): Outcome {
    match e
    case Beacon(from, to, known, now) => Receive(st, from, to, known, now + hold)
    case PortDown(p, _) => RemoveBroken(st, p)
    case Tick(now) => Poll(st, now)
    case Reload(saved, known, now) => Restore(saved, known, now + hold)
  }

  function Run(es: seq<Event>, hold: nat): Outcome {
    if es == [] then Next(EMPTY, [])
    else
      match Run(es[..|es| - 1], hold)
      case Crash => Crash
      case Next(st, log) =>
        match Step(st, es[|es| - 1], hold)
        case Crash => Crash
        case Next(st', out) => Next(st', log + out)
  }

  datatype Answer = CheckFailed | Reply(port: Port)

  /** The port at the other end, or 0:0 for a port without a link. */
  function Other(st: State, p: Port): Answer {
    if p !in st.index then Reply(Port(0, 0))
    else
      var l := st.index[p];
      if !Has(st.links, l.source, l.target) then CheckFailed
      else Reply(if l.source == p then l.target else l.source)
  }

  // ---------------------------------------------------------------------------
  // Invariants that need no assumption on the cabling
  // ---------------------------------------------------------------------------

  ghost predicate Endpoint(p: Port, l: Link) {
    p == l.source || p == l.target
  }

  /** The containers are well formed and no index entry dangles. */
  ghost predicate Sound(st: State) {
    && Ordered(st.links) && Ordered(st.waiting)
    && (forall l :: l in st.links ==> !Less(l.target, l.source))
    && (forall p :: p in st.index ==> st.index[p] in st.links && Endpoint(p, st.index[p]))
  }

  ghost predicate SoundOutcome(o: Outcome) {
    o.Next? ==> Sound(o.state)
  }

  lemma {:induction false} AddLinkMembers(st: State, n: Link)
    requires Ordered(st.links)
    ensures Ordered(AddLink(st, n).links)
    ensures forall x :: x in AddLink(st, n).links <==> x == n || (x in st.links && !Same(x, n.source, n.target))
  {
    var s := Erase(st.links, n.source, n.target);
    EraseMembers(st.links, n.source, n.target);
    InsertMembers(s, n);
    InsertOrdered(s, n);
  }

  lemma {:induction false} AddWaitingMembers(st: State, n: Link)
    requires Ordered(st.waiting)
    ensures Ordered(AddWaiting(st, n).waiting)
    ensures forall x :: x in AddWaiting(st, n).waiting <==> x == n || (x in st.waiting && !Same(x, n.source, n.target))
  {
    var s := Erase(st.waiting, n.source, n.target);
    EraseMembers(st.waiting, n.source, n.target);
    InsertMembers(s, n);
    InsertOrdered(s, n);
  }

  lemma {:induction false} AddLinkSound(st: State, n: Link)
    requires Sound(st) && !Less(n.target, n.source)
    ensures Sound(AddLink(st, n))
  {
    hide Ordered, Insert, Erase;
    AddLinkMembers(st, n);
    var st' := AddLink(st, n);
    forall p | p in st'.index ensures st'.index[p] in st'.links && Endpoint(p, st'.index[p]) {
      if p != n.source && p != n.target {
        assert st.index[p] in st.links && Endpoint(p, st.index[p]);
      }
    }
  }

  lemma {:induction false} AddWaitingSound(st: State, l: Link)
    requires Sound(st)
    ensures Sound(AddWaiting(st, l))
  {
    hide Ordered, Insert, Erase;
    AddWaitingMembers(st, l);
  }

  lemma {:induction false} RemoveSound(st: State, s: Port, t: Port)
    requires Sound(st)
    ensures Sound(st.(links := Erase(st.links, s, t), index := st.index - {s, t}))
  {
    EraseMembers(st.links, s, t);
    var index := st.index - {s, t};
    forall p | p in index ensures index[p] in Erase(st.links, s, t) {
      assert Endpoint(p, st.index[p]);
    }
  }

  lemma {:induction false} RemoveBrokenSound(st: State, p: Port)
    requires Sound(st)
    ensures SoundOutcome(RemoveBroken(st, p))
  {
    hide Sound, Erase, Has, Erasable;
    if p in st.index {
      var l := st.index[p];
      RemoveSound(st, l.source, l.target);
      RemoveSound(st, l.target, l.source);
    }
  }

  lemma {:induction false} EraseWaitingSound(st: State, a: Port, b: Port)
    requires Sound(st)
    ensures Sound(st.(waiting := Erase(st.waiting, a, b)))
  {
    hide Erase;
    EraseMembers(st.waiting, a, b);
  }

  lemma {:induction false} BeaconSound(st: State, from: Port, to: Port, until: int)
    requires Sound(st)
    ensures SoundOutcome(HandleBeacon(st, from, to, until))
  {
    hide Sound, Has, AddLink, AddWaiting, RemoveBroken, Erase;
    var link := Link(from, to, until);
    if Has(st.waiting, to, from) {
      var n, st1 := Normal(link), st.(waiting := Erase(st.waiting, to, from));
      EraseWaitingSound(st, to, from);
      AddLinkSound(st1, n);
      AddWaitingSound(AddLink(st1, n), n);
    } else if Has(st.waiting, from, to) {
      AddWaitingSound(st, link);
    } else {
      RemoveBrokenSound(st, from);
      if RemoveBroken(st, from).Next? {
        var st1 := RemoveBroken(st, from).state;
        RemoveBrokenSound(st1, to);
        if RemoveBroken(st1, to).Next? {
          AddWaitingSound(RemoveBroken(st1, to).state, link);
        }
      }
    }
  }

  // ---------------------------------------------------------------------------
  // The polling loops
  // ---------------------------------------------------------------------------

  ghost predicate Alive(l: Link, now: int) {
    l.until >= now
  }

  /** Dropping an expired prefix of an ordered set drops exactly the expired elements. */
  lemma {:induction false} DropExpiredExact(s: seq<Link>, now: int)
    requires Ordered(s)
    ensures Ordered(DropExpired(s, now))
    ensures forall x :: x in DropExpired(s, now) <==> x in s && Alive(x, now)
  {
    if s != [] && s[0].until < now {
      DropExpiredExact(s[1..], now);
      assert s == [s[0]] + s[1..];
    } else if s != [] {
      forall x | x in s ensures Alive(x, now) {
        var j :| 0 <= j < |s| && s[j] == x;
        assert j > 0 ==> LinkLess(s[0], s[j]);
      }
    }
  }

  function Links(links: seq<Link>, index: map<Port, Link>): State {
    State(links, [], index)
  }

  lemma {:induction false} ExpireKeeps(links: seq<Link>, index: map<Port, Link>, now: int)
    requires Sound(Links(links, index)) && Expire(links, index, now).Next?
    ensures Sound(Expire(links, index, now).state)
    ensures Expire(links, index, now).state.links == DropExpired(links, now)
  {
    if links != [] && links[0].until < now {
      var s, t := links[0].source, links[0].target;
      var rest, index' := links[1..], index - {s, t};
      forall p | p in index' ensures index'[p] in rest && Endpoint(p, index'[p]) {
        assert index[p] in links && index[p] != links[0];
        assert links == [links[0]] + rest;
      }
      ExpireKeeps(rest, index', now);
    }
  }

  lemma {:induction false} PollSound(st: State, now: int)
    requires Sound(st)
    ensures SoundOutcome(Poll(st, now))
  {
    if Poll(st, now).Next? {
      ExpireKeeps(st.links, st.index, now);
      DropExpiredExact(st.waiting, now);
    }
  }

  // The signals name the first links, all of them expired.
  ghost predicate Names(out: seq<Signal>, links: seq<Link>, now: int) {
    |out| <= |links| &&
    forall i :: 0 <= i < |out| ==> links[i].until < now && out[i] == Broken(links[i].source, links[i].target)
  }

  lemma {:induction false} NamesMore(out: seq<Signal>, l: Link, rest: seq<Link>, now: int)
    requires Names(out, rest, now) && l.until < now
    ensures Names([Broken(l.source, l.target)] + out, [l] + rest, now)
  {
  }

  /** The signals of a poll name exactly the expired links, in order of expiry. */
  lemma {:induction false} ExpireSignals(links: seq<Link>, index: map<Port, Link>, now: int)
    requires Expire(links, index, now).Next?
    ensures var out := Expire(links, index, now).signals;
            Names(out, links, now) && DropExpired(links, now) == links[|out|..]
  {
    hide Names;
    if links == [] || links[0].until >= now {
      NamesNone(links, now);
    } else {
      var l, rest := links[0], links[1..];
      var index' := index - {l.source, l.target};
      ExpireSignals(rest, index', now);
      var out := Expire(rest, index', now).signals;
      NamesMore(out, l, rest, now);
      assert links == [l] + rest;
      NamesFit(out, rest, now);
      assert rest[|out|..] == links[|out| + 1..];
    }
  }

  lemma {:induction false} NamesNone(links: seq<Link>, now: int)
    ensures Names([], links, now)
  {
  }

  lemma {:induction false} NamesFit(out: seq<Signal>, links: seq<Link>, now: int)
    requires Names(out, links, now)
    ensures |out| <= |links|
  {
  }

  lemma {:induction false} LoadSound(st: State, saved: seq<(Port, Port)>, known: set<nat>, until: int)
    requires Sound(st)
    ensures Sound(Load(st, saved, known, until))
    decreases |saved|
  {
    hide Sound, AddLink, AddWaiting;
    if saved != [] {
      var (from, to) := saved[0];
      var n := Normal(Link(from, to, until));
      if from.dpid in known && to.dpid in known {
        AddLinkSound(st, n);
        AddWaitingSound(AddLink(st, n), n);
        LoadSound(AddWaiting(AddLink(st, n), n), saved[1..], known, until);
      } else {
        LoadSound(st, saved[1..], known, until);
      }
    }
  }

  lemma {:induction false} EmptySound()
    ensures Sound(EMPTY) && Shadowed(EMPTY)
  {
  }

  lemma {:induction false} StepSound(st: State, e: Event, hold: nat)
    requires Sound(st)
    ensures SoundOutcome(Step(st, e, hold))
  {
    hide HandleBeacon, RemoveBroken, Poll, Load, Sound;
    match e
    case Beacon(from, to, known, now) => BeaconSound(st, from, to, now + hold);
    case PortDown(p, now) => RemoveBrokenSound(st, p);
    case Tick(now) => PollSound(st, now);
    case Reload(saved, known, now) =>
      EmptySound();
      LoadSound(EMPTY, saved, known, now + hold);
  }

  /** In every run, however ports are wired and whatever the clock readings: the containers stay
      well formed, with one entry a pair, and no index entry dangles. */
  lemma {:induction false} RunSound(es: seq<Event>, hold: nat)
    ensures SoundOutcome(Run(es, hold))
  {
    hide Sound, Step;
    if es == [] {
      EmptySound();
    } else {
      var n := |es| - 1;
      RunSound(es[..n], hold);
      if Run(es[..n], hold).Next? {
        StepSound(Run(es[..n], hold).state, es[n], hold);
      }
    }
  }

  // ---------------------------------------------------------------------------
  // Shadowing
  // ---------------------------------------------------------------------------

  // A waiting entry that vouches for l.
  ghost predicate Covers(waiting: seq<Link>, l: Link) {
    exists w :: w in waiting && Same(w, l.source, l.target) && w.until >= l.until
  }

  /** Every link is shadowed by a waiting entry of the same direction that lasts as long. */
  ghost predicate Shadowed(st: State) {
    forall l :: l in st.links ==> Covers(st.waiting, l)
  }

  // Everything but the pair about to be (re)added is shadowed.
  ghost predicate ShadowedBut(st: State, n: Link) {
    forall l :: l in st.links && !Same(l, n.source, n.target) ==> Covers(st.waiting, l)
  }

  // Another entry goes, this one's shadow stays.
  lemma {:induction false} CoversMore(waiting: seq<Link>, waiting': seq<Link>, l: Link)
    requires Covers(waiting, l)
    requires forall w :: w in waiting && Same(w, l.source, l.target) && w.until >= l.until ==> w in waiting'
    ensures Covers(waiting', l)
  {
    var w :| w in waiting && Same(w, l.source, l.target) && w.until >= l.until;
    assert w in waiting';
  }

  /** Adding a normalised link and then its waiting entry shadows every link, even if the pair
      was the one not shadowed. */
  lemma {:induction false} AddBothShadowed(st: State, n: Link)
    requires Ordered(st.links) && Ordered(st.waiting) && ShadowedBut(st, n)
    ensures Shadowed(AddWaiting(AddLink(st, n), n))
  {
    hide Ordered, Insert, Erase;
    AddLinkMembers(st, n);
    AddWaitingMembers(AddLink(st, n), n);
    var st' := AddWaiting(AddLink(st, n), n);
    forall l | l in st'.links ensures Covers(st'.waiting, l) {
      if l == n {
        assert n in st'.waiting && Same(n, l.source, l.target);
      } else {
        CoversMore(st.waiting, st'.waiting, l);
      }
    }
  }

  /** The link of this pair, if there is one, does not outlast the entry. */
  ghost predicate NotOutlasted(st: State, l: Link) {
    forall k :: k in st.links && Same(k, l.source, l.target) ==> k.until <= l.until
  }

  /** A new waiting entry, which replaces the one of its pair, leaves every link shadowed iff
      the link of its pair, if there is one, does not outlast it. */
  lemma {:induction false} AddWaitingExactly(st: State, l: Link)
    requires Ordered(st.waiting) && Shadowed(st)
    ensures Shadowed(AddWaiting(st, l)) <==> NotOutlasted(st, l)
  {
    hide Ordered, Insert, Erase;
    AddWaitingMembers(st, l);
    var st' := AddWaiting(st, l);
    assert l in st'.waiting;
    forall k | k in st.links ensures Covers(st'.waiting, k) <==> (Same(k, l.source, l.target) ==> k.until <= l.until) {
      if !Same(k, l.source, l.target) {
        CoversMore(st.waiting, st'.waiting, k);
      } else if k.until <= l.until {
        assert Same(l, k.source, k.target);
      }
    }
  }

  lemma {:induction false} RemoveBrokenShadowed(st: State, p: Port)
    requires Ordered(st.links) && Shadowed(st)
    ensures RemoveBroken(st, p).Next? ==> Shadowed(RemoveBroken(st, p).state)
    ensures RemoveBroken(st, p).Next? ==>
              RemoveBroken(st, p).state.waiting == st.waiting && forall l :: l in RemoveBroken(st, p).state.links ==> l in st.links
  {
    hide Ordered, Erase, Covers;
    if p in st.index {
      var l := st.index[p];
      EraseMembers(st.links, l.source, l.target);
      EraseMembers(st.links, l.target, l.source);
    }
  }

  lemma {:induction false} PollShadowed(st: State, now: int)
    requires Sound(st) && Shadowed(st)
    ensures Poll(st, now).Next? ==> Shadowed(Poll(st, now).state)
  {
    hide Ordered, DropExpired, Expire;
    if Poll(st, now).Next? {
      ExpireLinks(st.links, st.index, now);
      DropExpiredExact(st.links, now);
      DropExpiredExact(st.waiting, now);
      var st' := Poll(st, now).state;
      forall l | l in st'.links ensures Covers(st'.waiting, l) {
        CoversMore(st.waiting, st'.waiting, l);
      }
    }
  }

  lemma {:induction false} LoadShadowed(st: State, saved: seq<(Port, Port)>, known: set<nat>, until: int)
    requires Sound(st) && Shadowed(st)
    ensures Shadowed(Load(st, saved, known, until))
    decreases |saved|
  {
    hide Ordered, AddLink, AddWaiting, Covers;
    if saved != [] {
      var (from, to) := saved[0];
      var n := Normal(Link(from, to, until));
      if from.dpid in known && to.dpid in known {
        AddLinkSound(st, n);
        AddWaitingSound(AddLink(st, n), n);
        AddBothShadowed(st, n);
        LoadShadowed(AddWaiting(AddLink(st, n), n), saved[1..], known, until);
      } else {
        LoadShadowed(st, saved[1..], known, until);
      }
    }
  }

  // A confirming beacon erases the entry of the other direction, which shadows no other link.
  lemma {:induction false} ConfirmShadowed(st: State, from: Port, to: Port, until: int)
    requires Sound(st) && Shadowed(st) && Has(st.waiting, to, from)
    ensures Shadowed(HandleBeacon(st, from, to, until).state)
  {
    hide Ordered, Has, AddLink, AddWaiting, Erase;
    var n, st1 := Normal(Link(from, to, until)), st.(waiting := Erase(st.waiting, to, from));
    EraseMembers(st.waiting, to, from);
    forall l | l in st1.links && !Same(l, n.source, n.target) ensures Covers(st1.waiting, l) {
      CoversMore(st.waiting, st1.waiting, l);
    }
    AddBothShadowed(st1, n);
  }

  // A pair neither direction of which waits has no link.
  lemma {:induction false} NoneOutlasts(st: State, st': State, l: Link)
    requires Shadowed(st) && !Has(st.waiting, l.source, l.target) && forall k :: k in st'.links ==> k in st.links
    ensures NotOutlasted(st', l) && NotOutlasted(st, l)
  {
    HasMember(st.waiting, l.source, l.target);
    forall k | k in st.links ensures !Same(k, l.source, l.target) {
      assert Covers(st.waiting, k);
    }
  }

  /** A beacon leaves every link shadowed iff it confirms a link, or the link of its pair does
      not outlast it. */
  lemma {:induction false} BeaconShadowExactly(st: State, from: Port, to: Port, until: int)
    requires Sound(st) && Shadowed(st) && HandleBeacon(st, from, to, until).Next?
    ensures Shadowed(HandleBeacon(st, from, to, until).state) <==>
            Has(st.waiting, to, from) || NotOutlasted(st, Link(from, to, until))
  {
    hide Ordered, Has, AddLink, AddWaiting, RemoveBroken, Shadowed, NotOutlasted;
    var link := Link(from, to, until);
    if Has(st.waiting, to, from) {
      ConfirmShadowed(st, from, to, until);
    } else if Has(st.waiting, from, to) {
      AddWaitingExactly(st, link);
    } else {
      RemoveBrokenShadowed(st, from);
      RemoveBrokenSound(st, from);
      var st1 := RemoveBroken(st, from).state;
      RemoveBrokenShadowed(st1, to);
      RemoveBrokenSound(st1, to);
      var st2 := RemoveBroken(st1, to).state;
      NoneOutlasts(st, st2, link);
      AddWaitingExactly(st2, link);
    }
  }

  /** What can be checked before an event: a beacon that confirms nothing is not older than the
      link of its pair. */
  ghost predicate InTime(st: State, e: Event, hold: nat) {
    e.Beacon? && e.from.dpid in e.known && e.to.dpid in e.known && !Has(st.waiting, e.to, e.from)
    ==> NotOutlasted(st, Link(e.from, e.to, e.now + hold))
  }

  /** Exactly an event in time leaves every link shadowed. */
  lemma {:induction false} StepShadowExactly(st: State, e: Event, hold: nat)
    requires Sound(st) && Shadowed(st) && Step(st, e, hold).Next?
    ensures Shadowed(Step(st, e, hold).state) <==> InTime(st, e, hold)
  {
    hide HandleBeacon, RemoveBroken, Poll, Load, Shadowed, NotOutlasted, Has, Ordered;
    match e
    case Beacon(from, to, known, now) =>
      if from.dpid in known && to.dpid in known {
        BeaconShadowExactly(st, from, to, now + hold);
      }
    case PortDown(p, _) => RemoveBrokenShadowed(st, p);
    case Tick(now) => PollShadowed(st, now);
    case Reload(saved, known, now) =>
      EmptySound();
      LoadShadowed(EMPTY, saved, known, now + hold);
  }

  ghost predicate InTimeRun(es: seq<Event>, hold: nat) {
    es == [] || (var n := |es| - 1;
                 InTimeRun(es[..n], hold) && Run(es[..n], hold).Next? && InTime(Run(es[..n], hold).state, es[n], hold))
  }

  ghost predicate ShadowedRun(es: seq<Event>, hold: nat) {
    && (es == [] || ShadowedRun(es[..|es| - 1], hold))
    && Run(es, hold).Next? && Shadowed(Run(es, hold).state)
  }

  /** However ports are wired: throughout a run every link is shadowed iff every event was in
      time at its turn. */
  lemma {:induction false} ShadowExactly(es: seq<Event>, hold: nat)
    requires Run(es, hold).Next?
    ensures ShadowedRun(es, hold) <==> InTimeRun(es, hold)
  {
    hide Step, Shadowed, Sound, InTime;
    if es == [] {
      EmptySound();
    } else {
      var n := |es| - 1;
      ShadowExactly(es[..n], hold);
      RunSound(es[..n], hold);
      var st := Run(es[..n], hold).state;
      if Shadowed(st) {
        StepShadowExactly(st, es[n], hold);
      }
    }
  }

  // ---------------------------------------------------------------------------
  // Clock readings in the order of the lock
  // ---------------------------------------------------------------------------

  ghost predicate ExpireBy(st: State, t: int) {
    forall l :: l in st.links || l in st.waiting ==> l.until <= t
  }

  ghost predicate ExpireOutcome(o: Outcome, t: int) {
    o.Next? ==> ExpireBy(o.state, t)
  }

  /** No event reads the clock before an event that got the lock earlier. The clock is read
      before the lock is taken, so this is an assumption about the threads. */
  ghost predicate LockOrder(es: seq<Event>) {
    forall i, j :: 0 <= i < j < |es| ==> es[i].now <= es[j].now
  }

  lemma {:induction false} AddBothExpire(st: State, n: Link)
    requires Ordered(st.links) && Ordered(st.waiting) && ExpireBy(st, n.until)
    ensures ExpireBy(AddWaiting(st, n), n.until) && ExpireBy(AddWaiting(AddLink(st, n), n), n.until)
  {
    hide Ordered, Insert, Erase;
    AddLinkMembers(st, n);
    AddWaitingMembers(st, n);
    AddWaitingMembers(AddLink(st, n), n);
  }

  lemma {:induction false} RemoveBrokenExpire(st: State, p: Port, t: int)
    requires Ordered(st.links) && ExpireBy(st, t)
    ensures ExpireOutcome(RemoveBroken(st, p), t)
  {
    hide Ordered, Erase;
    if p in st.index {
      var l := st.index[p];
      EraseMembers(st.links, l.source, l.target);
      EraseMembers(st.links, l.target, l.source);
    }
  }

  lemma {:induction false} BeaconExpire(st: State, from: Port, to: Port, until: int)
    requires Sound(st) && ExpireBy(st, until)
    ensures ExpireOutcome(HandleBeacon(st, from, to, until), until)
  {
    hide Ordered, Has, AddLink, AddWaiting, RemoveBroken, Erase;
    var link := Link(from, to, until);
    if Has(st.waiting, to, from) {
      EraseMembers(st.waiting, to, from);
      AddBothExpire(st.(waiting := Erase(st.waiting, to, from)), Normal(link));
    } else if Has(st.waiting, from, to) {
      AddBothExpire(st, link);
    } else {
      RemoveBrokenExpire(st, from, until);
      RemoveBrokenSound(st, from);
      if RemoveBroken(st, from).Next? {
        var st1 := RemoveBroken(st, from).state;
        RemoveBrokenExpire(st1, to, until);
        RemoveBrokenSound(st1, to);
        if RemoveBroken(st1, to).Next? {
          AddBothExpire(RemoveBroken(st1, to).state, link);
        }
      }
    }
  }

  lemma {:induction false} PollExpire(st: State, now: int, t: int)
    requires Sound(st) && ExpireBy(st, t)
    ensures ExpireOutcome(Poll(st, now), t)
  {
    hide Ordered, Expire, DropExpired;
    DropExpiredExact(st.links, now);
    DropExpiredExact(st.waiting, now);
    if Poll(st, now).Next? {
      ExpireLinks(st.links, st.index, now);
    }
  }

  lemma {:induction false} LoadExpire(st: State, saved: seq<(Port, Port)>, known: set<nat>, until: int)
    requires Sound(st) && ExpireBy(st, until)
    ensures ExpireBy(Load(st, saved, known, until), until)
    decreases |saved|
  {
    hide Ordered, AddLink, AddWaiting, ExpireBy;
    if saved != [] {
      var (from, to) := saved[0];
      var n := Normal(Link(from, to, until));
      if from.dpid in known && to.dpid in known {
        AddLinkSound(st, n);
        AddWaitingSound(AddLink(st, n), n);
        AddBothExpire(st, n);
        LoadExpire(AddWaiting(AddLink(st, n), n), saved[1..], known, until);
      } else {
        LoadExpire(st, saved[1..], known, until);
      }
    }
  }

  lemma {:induction false} StepExpire(st: State, e: Event, hold: nat)
    requires Sound(st) && ExpireBy(st, e.now + hold)
    ensures ExpireOutcome(Step(st, e, hold), e.now + hold)
  {
    hide HandleBeacon, RemoveBroken, Poll, Load, Ordered;
    match e
    case Beacon(from, to, known, now) => BeaconExpire(st, from, to, now + hold);
    case PortDown(p, now) => RemoveBrokenExpire(st, p, now + hold);
    case Tick(now) => PollExpire(st, now, now + hold);
    case Reload(saved, known, now) =>
      EmptySound();
      LoadExpire(EMPTY, saved, known, now + hold);
  }

  lemma {:induction false} RunExpire(es: seq<Event>, hold: nat, t: int)
    requires LockOrder(es) && forall i :: 0 <= i < |es| ==> es[i].now + hold <= t
    ensures ExpireOutcome(Run(es, hold), t)
  {
    hide Step, Sound;
    if es != [] {
      var n := |es| - 1;
      RunExpire(es[..n], hold, es[n].now + hold);
      RunSound(es[..n], hold);
      if Run(es[..n], hold).Next? {
        StepExpire(Run(es[..n], hold).state, es[n], hold);
      }
    }
  }

  /** If the clock is read in the order of the lock, every event is in time. */
  lemma {:induction false} LockOrderInTime(es: seq<Event>, hold: nat)
    requires LockOrder(es) && Run(es, hold).Next?
    ensures InTimeRun(es, hold)
  {
    hide Step, Sound;
    if es != [] {
      var n := |es| - 1;
      LockOrderInTime(es[..n], hold);
      RunExpire(es[..n], hold, es[n].now + hold);
    }
  }

  // ---------------------------------------------------------------------------
  // Discovery happens, and lasts
  // ---------------------------------------------------------------------------

  /** A beacon that meets the opposite direction makes or renews the link, which then outlasts
      every poll up to its expiry. */
  lemma {:induction false} ConfirmedLasts(st: State, from: Port, to: Port, until: int, now: int)
    requires Sound(st) && Has(st.waiting, to, from) && now <= until
    ensures var st' := HandleBeacon(st, from, to, until).state;
            var n := Normal(Link(from, to, until));
            && n in st'.links && n in st'.waiting
            && (Poll(st', now).Next? ==> n in Poll(st', now).state.links && n in Poll(st', now).state.waiting)
  {
    var n := Normal(Link(from, to, until));
    var st1 := st.(waiting := Erase(st.waiting, to, from));
    EraseMembers(st.waiting, to, from);
    AddLinkMembers(st1, n);
    AddWaitingMembers(AddLink(st1, n), n);
    var st' := AddWaiting(AddLink(st1, n), n);
    DropExpiredExact(st'.links, now);
    DropExpiredExact(st'.waiting, now);
    if Poll(st', now).Next? {
      ExpireLinks(st'.links, st'.index, now);
    }
  }

  lemma {:induction false} ExpireLinks(links: seq<Link>, index: map<Port, Link>, now: int)
    requires Expire(links, index, now).Next?
    ensures Expire(links, index, now).state.links == DropExpired(links, now)
  {
    if links != [] && links[0].until < now {
      ExpireLinks(links[1..], index - {links[0].source, links[0].target}, now);
    }
  }

  // After a beacon, either its direction waits or the link is there and waits normalised.
  ghost predicate HalfSeen(st: State, from: Port, to: Port) {
    Has(st.waiting, from, to) || (Has(st.waiting, to, from) && Has(st.links, to, from))
  }

  lemma {:induction false} FirstBeacon(st: State, from: Port, to: Port, until: int)
    requires Sound(st) && HandleBeacon(st, from, to, until).Next?
    ensures HalfSeen(HandleBeacon(st, from, to, until).state, from, to)
  {
    BeaconMembers(st, from, to, until);
    var st', n := HandleBeacon(st, from, to, until).state, Normal(Link(from, to, until));
    HasMember(st'.waiting, from, to);
    HasMember(st'.waiting, to, from);
    HasMember(st'.links, to, from);
  }

  // What a beacon certainly leaves behind.
  lemma {:induction false} BeaconMembers(st: State, from: Port, to: Port, until: int)
    requires Sound(st) && HandleBeacon(st, from, to, until).Next?
    ensures var st', link := HandleBeacon(st, from, to, until).state, Link(from, to, until);
            if Has(st.waiting, to, from) then Normal(link) in st'.links && Normal(link) in st'.waiting
            else link in st'.waiting && (Has(st.waiting, from, to) ==> st'.links == st.links)
  {
    var link := Link(from, to, until);
    if Has(st.waiting, to, from) {
      ConfirmedLasts(st, from, to, until, until);
    } else if Has(st.waiting, from, to) {
      AddWaitingMembers(st, link);
    } else {
      RemoveBrokenSound(st, from);
      var st1 := RemoveBroken(st, from).state;
      RemoveBrokenSound(st1, to);
      AddWaitingMembers(RemoveBroken(st1, to).state, link);
    }
  }

  /** Two beacons over a cable, one each way, in either order, make the link. */
  lemma {:induction false} TwoBeaconsLink(st: State, a: Port, b: Port, t1: int, t2: int)
    requires Sound(st) && HandleBeacon(st, a, b, t1).Next?
    ensures var st1 := HandleBeacon(st, a, b, t1).state;
            HandleBeacon(st1, b, a, t2).Next?
            && Has(HandleBeacon(st1, b, a, t2).state.links,
                   Normal(Link(a, b, t2)).source, Normal(Link(a, b, t2)).target)
  {
    var st1 := HandleBeacon(st, a, b, t1).state;
    BeaconSound(st, a, b, t1);
    FirstBeacon(st, a, b, t1);
    assert HandleBeacon(st1, b, a, t2).Next?;
    BeaconMembers(st1, b, a, t2);
    var n := Normal(Link(a, b, t2));
    var st2 := HandleBeacon(st1, b, a, t2).state;
    HasMember(st2.links, n.source, n.target);
    if !Has(st1.waiting, a, b) {
      SoundNormal(st1, b, a);
    } else {
      assert Normal(Link(b, a, t2)) in st2.links;
    }
  }

  lemma {:induction false} SoundNormal(st: State, a: Port, b: Port)
    requires Sound(st) && Has(st.links, a, b)
    ensures !Less(b, a)
  {
    HasMember(st.links, a, b);
  }

  // ---------------------------------------------------------------------------
  // Signals
  // ---------------------------------------------------------------------------

  ghost function Pairs(links: seq<Link>): set<(Port, Port)> {
    set l | l in links :: (l.source, l.target)
  }

  /** The live pairs after a sequence of signals, or None once a pair is announced while
      live or broken while not, or is not in normal order. */
  datatype Live = None | Some(pairs: set<(Port, Port)>)

  ghost function Replay(live: Live, out: seq<Signal>): Live {
    if live.None? || out == [] then live
    else
      match Replay(live, out[..|out| - 1])
      case None => None
      case Some(s) =>
        match out[|out| - 1]
        case Discovered(a, b) => if (a, b) in s || Less(b, a) then None else Some(s + {(a, b)})
        case Broken(a, b) => if (a, b) !in s || Less(b, a) then None else Some(s - {(a, b)})
  }

  lemma {:induction false} ReplayConcat(live: Live, a: seq<Signal>, b: seq<Signal>)
    ensures Replay(live, a + b) == Replay(Replay(live, a), b)
  {
    if b == [] {
      assert a + b == a;
    } else {
      var n := |b| - 1;
      assert (a + b)[..|a + b| - 1] == a + b[..n];
      ReplayConcat(live, a, b[..n]);
      assert (a + b)[|a + b| - 1] == b[n];
      if Replay(live, a).None? {
        ReplayNone(b[..n]);
      }
    }
  }

  lemma {:induction false} ReplayNone(out: seq<Signal>)
    ensures Replay(None, out) == None
  {
  }

  lemma {:induction false} ReplayOne(s: set<(Port, Port)>, x: Signal)
    ensures Replay(Some(s), [x]) ==
            match x
            case Discovered(a, b) => if (a, b) in s || Less(b, a) then None else Some(s + {(a, b)})
            case Broken(a, b) => if (a, b) !in s || Less(b, a) then None else Some(s - {(a, b)})
  {
    assert [x][..0] == [];
  }

  lemma {:induction false} PairsMember(links: seq<Link>, a: Port, b: Port)
    ensures (a, b) in Pairs(links) <==> Has(links, a, b)
  {
    HasMember(links, a, b);
    if l :| l in links && Same(l, a, b) {
      assert (l.source, l.target) in Pairs(links);
    }
  }

  // Pairs after an erase, as sets.
  lemma {:induction false} ErasePairs(links: seq<Link>, a: Port, b: Port)
    requires Ordered(links)
    ensures Pairs(Erase(links, a, b)) == Pairs(links) - {(a, b)}
  {
    var q := Erase(links, a, b);
    EraseMembers(links, a, b);
    forall l | l in links && !Same(l, a, b) ensures (l.source, l.target) in Pairs(q) {
      assert l in q;
    }
  }

  lemma {:induction false} AddLinkPairs(st: State, n: Link)
    requires Ordered(st.links)
    ensures Pairs(AddLink(st, n).links) == Pairs(st.links) + {(n.source, n.target)}
  {
    var q := AddLink(st, n).links;
    AddLinkMembers(st, n);
    assert n in q;
    forall l | l in st.links ensures (l.source, l.target) in Pairs(q) {
      assert l in q || Same(l, n.source, n.target);
    }
  }

  ghost predicate Tracks(st: State, o: Outcome) {
    o.Next? ==> Replay(Some(Pairs(st.links)), o.signals) == Some(Pairs(o.state.links))
  }

  lemma {:induction false} RemoveBrokenTracks(st: State, p: Port)
    requires Sound(st)
    ensures Tracks(st, RemoveBroken(st, p))
  {
    if p in st.index && RemoveBroken(st, p).Next? {
      var l := st.index[p];
      var (s, t) := if Less(l.target, l.source) then (l.target, l.source) else (l.source, l.target);
      ErasePairs(st.links, s, t);
      PairsMember(st.links, s, t);
      ReplayOne(Pairs(st.links), Broken(s, t));
    }
  }

  lemma {:induction false} BeaconTracks(st: State, from: Port, to: Port, until: int)
    requires Sound(st)
    ensures Tracks(st, HandleBeacon(st, from, to, until))
  {
    if Has(st.waiting, to, from) {
      var n := Normal(Link(from, to, until));
      AddLinkPairs(st.(waiting := Erase(st.waiting, to, from)), n);
      PairsMember(st.links, n.source, n.target);
      ReplayOne(Pairs(st.links), Discovered(n.source, n.target));
    } else if !Has(st.waiting, from, to) && HandleBeacon(st, from, to, until).Next? {
      RemoveBrokenTracks(st, from);
      RemoveBrokenSound(st, from);
      var o1 := RemoveBroken(st, from);
      RemoveBrokenTracks(o1.state, to);
      ReplayConcat(Some(Pairs(st.links)), o1.signals, RemoveBroken(o1.state, to).signals);
    }
  }

  lemma {:induction false} ExpireTracks(links: seq<Link>, index: map<Port, Link>, now: int)
    requires Ordered(links) && forall l :: l in links ==> !Less(l.target, l.source)
    ensures Tracks(Links(links, index), Expire(links, index, now))
  {
    if links != [] && links[0].until < now && Expire(links, index, now).Next? {
      var s, t := links[0].source, links[0].target;
      var rest, index' := links[1..], index - {s, t};
      ExpireTracks(rest, index', now);
      assert Erase(links, s, t) == rest;
      ErasePairs(links, s, t);
      assert links[0] in links;
      ReplayOne(Pairs(links), Broken(s, t));
      ReplayConcat(Some(Pairs(links)), [Broken(s, t)], Expire(rest, index', now).signals);
    }
  }

  lemma {:induction false} PollTracks(st: State, now: int)
    requires Sound(st)
    ensures Tracks(st, Poll(st, now))
  {
    ExpireTracks(st.links, st.index, now);
  }

  ghost predicate NoReload(es: seq<Event>) {
    forall i :: 0 <= i < |es| ==> !es[i].Reload?
  }

  lemma {:induction false} ReceiveTracks(st: State, from: Port, to: Port, known: set<nat>, until: int)
    requires Sound(st)
    ensures Tracks(st, Receive(st, from, to, known, until))
  {
    BeaconTracks(st, from, to, until);
  }

  lemma {:induction false} StepTracks(st: State, e: Event, hold: nat)
    requires Sound(st) && !e.Reload?
    ensures Tracks(st, Step(st, e, hold))
  {
    hide Receive, RemoveBroken, Poll, Restore, Tracks;
    match e
    case Beacon(from, to, known, now) => ReceiveTracks(st, from, to, known, now + hold);
    case PortDown(p, _) => RemoveBrokenTracks(st, p);
    case Tick(now) => PollTracks(st, now);
  }

  /** On a primary without reloads, in the order of the changes under the lock, each pair is
      announced and broken alternately, starting with an announcement, always in normal order,
      and the live pairs are the links. */
  lemma {:induction false} SignalsAlternate(es: seq<Event>, hold: nat)
    requires NoReload(es) && Run(es, hold).Next?
    ensures Replay(Some({}), Run(es, hold).signals) == Some(Pairs(Run(es, hold).state.links))
  {
    if es != [] {
      var n := |es| - 1;
      SignalsAlternate(es[..n], hold);
      RunSound(es[..n], hold);
      var o := Run(es[..n], hold);
      StepTracks(o.state, es[n], hold);
      ReplayConcat(Some({}), o.signals, Step(o.state, es[n], hold).signals);
    }
  }
}
