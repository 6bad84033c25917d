/** The message limiter of the OpenFlow server (src/core/OFServer.cc): a sliding window of one
    second over the messages of each connection.  Times are in nanoseconds. */
module Limiter {

  const SECOND: int := 1_000_000_000

  /** Drop outdated time points from the front. */
  function Prune(q: seq<int>, now: int): seq<int> {
    if q != [] && now - q[0] > SECOND then Prune(q[1..], now) else q
  }

  datatype Step = Accepted(queue: seq<int>) | Dropped(queue: seq<int>)

  function Message(q: seq<int>, maxPps: nat, now: int): Step {
    var recent := Prune(q, now);
    if |recent| > maxPps then Dropped(recent) else Accepted(recent + [now])
  }

  // The queue of one connection and the times of its accepted messages.
  datatype State = State(queue: seq<int>, log: seq<int>)

  function After(st: State, maxPps: nat, now: int): State {
    match Message(st.queue, maxPps, now)
    case Accepted(q) => State(q, st.log + [now])
    case Dropped(q) => State(q, st.log)
  }

  function Run(times: seq<int>, maxPps: nat): State {
    if times == [] then State([], [])
    else
      var n := |times| - 1;
      After(Run(times[..n], maxPps), maxPps, times[n])
  }

  ghost predicate Sorted(s: seq<int>) {
    forall i, j :: 0 <= i < j < |s| ==> s[i] <= s[j]
  }

  /** Any maxPps + 2 successive accepted messages span more than a second. */
  ghost predicate Spread(log: seq<int>, maxPps: nat) {
    forall i, j :: 0 <= i && i + maxPps < j < |log| ==> log[j] - log[i] > SECOND
  }

  // The last |q| elements.
  ghost predicate Suffix(q: seq<int>, s: seq<int>) {
    |q| <= |s| && q == s[|s| - |q|..]
  }

  /** The queue is the accepted time points not older than a second at time now. */
  ghost predicate Window(st: State, now: int) {
    var k := |st.log| - |st.queue|;
    && k >= 0 && Suffix(st.queue, st.log)
    && (forall i :: 0 <= i < k ==> now - st.log[i] > SECOND)
    && (forall i :: k <= i < |st.log| ==> 0 <= now - st.log[i] <= SECOND)
  }

  lemma {:induction false} PruneSuffix(q: seq<int>, now: int)
    requires Sorted(q)
    ensures var r := Prune(q, now);
            && |r| <= |q| && Suffix(r, q)
            && (forall i :: 0 <= i < |q| - |r| ==> now - q[i] > SECOND)
            && (forall i :: 0 <= i < |r| ==> now - r[i] <= SECOND)
  {
    if q != [] && now - q[0] > SECOND {
      PruneSuffix(q[1..], now);
    }
  }

  lemma {:induction false} SuffixSorted(q: seq<int>, s: seq<int>)
    requires Sorted(s) && Suffix(q, s)
    ensures Sorted(q)
  {
  }

  lemma {:induction false} SuffixOfSuffix(r: seq<int>, q: seq<int>, s: seq<int>)
    requires Suffix(r, q) && Suffix(q, s)
    ensures Suffix(r, s)
  {
    assert forall i :: 0 <= i < |r| ==> r[i] == q[|q| - |r| + i] == s[|s| - |r| + i];
  }

  lemma {:induction false} OldPart(log: seq<int>, q: seq<int>, n: nat, now: int)
    requires Suffix(q, log) && n <= |q| && forall i :: 0 <= i < n ==> now - q[i] > SECOND
    requires forall i :: 0 <= i < |log| - |q| ==> now - log[i] > SECOND
    ensures forall i :: 0 <= i < |log| - |q| + n ==> now - log[i] > SECOND
  {
    var k := |log| - |q|;
    forall i | 0 <= i < k + n ensures now - log[i] > SECOND {
      if i >= k {
        assert q[i - k] == log[i];
      }
    }
  }

  lemma {:induction false} RecentPart(log: seq<int>, r: seq<int>, now: int)
    requires Suffix(r, log) && forall i :: 0 <= i < |r| ==> now - r[i] <= SECOND
    ensures forall i :: |log| - |r| <= i < |log| ==> now - log[i] <= SECOND
  {
    forall i | |log| - |r| <= i < |log| ensures now - log[i] <= SECOND {
      assert r[i - (|log| - |r|)] == log[i];
    }
  }

  lemma {:induction false} PruneWindow(st: State, before: int, now: int)
    requires Sorted(st.log) && Window(st, before) && before <= now
    ensures Window(State(Prune(st.queue, now), st.log), now)
  {
    hide Sorted, Prune, Suffix;
    SuffixSorted(st.queue, st.log);
    PruneSuffix(st.queue, now);
    var r := Prune(st.queue, now);
    SuffixOfSuffix(r, st.queue, st.log);
    OldPart(st.log, st.queue, |st.queue| - |r|, now);
    RecentPart(st.log, r, now);
  }

  lemma {:induction false} SpreadGrows(log: seq<int>, maxPps: nat, now: int)
    requires Spread(log, maxPps) && forall i :: 0 <= i && i + maxPps < |log| ==> now - log[i] > SECOND
    ensures Spread(log + [now], maxPps)
  {
  }

  lemma {:induction false} SortedGrows(log: seq<int>, now: int)
    requires Sorted(log) && forall i :: 0 <= i < |log| ==> log[i] <= now
    ensures Sorted(log + [now])
  {
  }

  lemma {:induction false} WindowGrows(st: State, now: int)
    requires Window(st, now)
    ensures Window(State(st.queue + [now], st.log + [now]), now)
  {
    assert st.queue + [now] == (st.log + [now])[|st.log| - |st.queue|..];
  }

  lemma {:induction false} AcceptKeeps(st: State, maxPps: nat, now: int)
    requires Sorted(st.log) && Spread(st.log, maxPps) && Window(st, now) && |st.queue| <= maxPps
    ensures var st' := State(st.queue + [now], st.log + [now]);
            Sorted(st'.log) && Spread(st'.log, maxPps) && Window(st', now)
  {
    hide Sorted, Spread;
    var k := |st.log| - |st.queue|;
    SortedGrows(st.log, now);
    SpreadGrows(st.log, maxPps, now);
    WindowGrows(st, now);
  }

  ghost predicate Ok(st: State, maxPps: nat, now: int) {
    Sorted(st.log) && Spread(st.log, maxPps) && |st.queue| <= maxPps + 1 && Window(st, now)
  }

  lemma {:induction false} MessageKeeps(st: State, maxPps: nat, before: int, now: int)
    requires Ok(st, maxPps, before) && before <= now
    ensures Ok(After(st, maxPps, now), maxPps, now)
  {
    var recent := State(Prune(st.queue, now), st.log);
    PruneWindow(st, before, now);
    PruneShrinks(st.queue, now);
    if |recent.queue| <= maxPps {
      AcceptKeeps(recent, maxPps, now);
    }
  }

  lemma {:induction false} PruneShrinks(q: seq<int>, now: int)
    ensures |Prune(q, now)| <= |q|
  {
    if q != [] && now - q[0] > SECOND {
      PruneShrinks(q[1..], now);
    }
  }

  /** In every run under a monotone clock the queue holds exactly the accepted time points of
      the last second, and no window is overfull. */
  lemma {:induction false} RunWindow(times: seq<int>, maxPps: nat)
    requires Sorted(times)
    ensures Ok(Run(times, maxPps), maxPps, if times == [] then 0 else times[|times| - 1])
  {
    if times != [] {
      var n := |times| - 1;
      RunWindow(times[..n], maxPps);
      var st := Run(times[..n], maxPps);
      var before := if n == 0 then times[0] else times[n - 1];
      assert Ok(st, maxPps, before);
      MessageKeeps(st, maxPps, before, times[n]);
      assert Run(times, maxPps) == After(st, maxPps, times[n]);
    }
  }

  // How many entries of log lie in [t, t + SECOND].
  function CountIn(log: seq<int>, t: int): nat {
    if log == [] then 0
    else CountIn(log[..|log| - 1], t) + if t <= log[|log| - 1] <= t + SECOND then 1 else 0
  }

  lemma {:induction false} CountBound(log: seq<int>, maxPps: nat, t: int)
    requires Sorted(log) && Spread(log, maxPps)
    ensures CountIn(log, t) <= maxPps + 1
  {
    if log != [] {
      var n := |log| - 1;
      if t <= log[n] <= t + SECOND {
        CountTail(log, t, if |log| > maxPps + 1 then |log| - maxPps - 1 else 0);
      } else {
        CountBound(log[..n], maxPps, t);
      }
    }
  }

  // If everything before k is below t, at most the rest counts.
  lemma {:induction false} CountTail(log: seq<int>, t: int, k: nat)
    requires k <= |log| && forall i :: 0 <= i < k ==> log[i] < t
    ensures CountIn(log, t) <= |log| - k
  {
    if |log| > k {
      CountTail(log[..|log| - 1], t, k);
    } else if log != [] {
      CountTail(log[..|log| - 1], t, k - 1);
    }
  }

  /** Any closed window of one second contains at most maxPps + 1 accepted messages. */
  lemma {:induction false} RateBound(times: seq<int>, maxPps: nat, t: int)
    requires Sorted(times)
    ensures CountIn(Run(times, maxPps).log, t) <= maxPps + 1
  {
    RunWindow(times, maxPps);
    CountBound(Run(times, maxPps).log, maxPps, t);
  }

  // What lies before k is out of the window and what comes from k on is in it.
  lemma {:induction false} CountExact(log: seq<int>, t: int, k: nat)
    requires k <= |log| && (forall i :: 0 <= i < k ==> log[i] < t)
    requires forall i :: k <= i < |log| ==> t <= log[i] <= t + SECOND
    ensures CountIn(log, t) == |log| - k
  {
    if log != [] {
      var n := |log| - 1;
      CountExact(log[..n], t, if k <= n then k else n);
    }
  }

  // The pruned queue counts the accepted messages of the last second.
  lemma {:induction false} RecentCount(st: State, before: int, now: int)
    requires Sorted(st.log) && Window(st, before) && before <= now
    ensures |Prune(st.queue, now)| == CountIn(st.log, now - SECOND)
  {
    hide Sorted, Suffix, CountIn, Prune;
    PruneWindow(st, before, now);
    CountExact(st.log, now - SECOND, |st.log| - |Prune(st.queue, now)|);
  }

  lemma {:induction false} SortedFront(times: seq<int>, now: int)
    requires Sorted(times + [now])
    ensures Sorted(times) && (times != [] ==> times[|times| - 1] <= now)
  {
    var all := times + [now];
    forall i, j | 0 <= i < j < |times| ensures times[i] <= times[j] {
      assert all[i] <= all[j];
    }
    if times != [] {
      assert all[|times| - 1] <= all[|times|];
    }
  }

  /** In every run under a monotone clock, the next message is dropped iff more than maxPps
      accepted ones lie in the second before it. */
  lemma {:induction false} DroppedExactly(times: seq<int>, maxPps: nat, now: int)
    requires Sorted(times + [now])
    ensures var st, st' := Run(times, maxPps), Run(times + [now], maxPps);
            st'.log == if CountIn(st.log, now - SECOND) > maxPps then st.log else st.log + [now]
  {
    assert (times + [now])[..|times|] == times;
    SortedFront(times, now);
    RunWindow(times, maxPps);
    if times == [] {
      NothingYet(now);
    }
    hide Sorted, CountIn, Prune, Window;
    RecentCount(Run(times, maxPps), if times == [] then now else times[|times| - 1], now);
  }

  lemma {:induction false} NothingYet(now: int)
    ensures Window(State([], []), now)
  {
  }

  function Burst(now: int, n: nat): (s: seq<int>)
    ensures |s| == n && (n > 0 ==> s[0] == now)
  {
    if n == 0 then [] else Burst(now, n - 1) + [now]
  }

  /** The bound is reached: maxPps + 1 messages at one instant are all accepted. */
  lemma {:induction false} BoundReached(maxPps: nat, n: nat, now: int)
    requires n <= maxPps + 1
    ensures Run(Burst(now, n), maxPps) == State(Burst(now, n), Burst(now, n))
  {
    if n > 0 {
      BoundReached(maxPps, n - 1, now);
      var b := Burst(now, n - 1);
      assert Burst(now, n)[..n - 1] == b && Burst(now, n)[n - 1] == now;
      assert After(State(b, b), maxPps, now) == State(b + [now], b + [now]);
    }
  }

  class MessageLimiter {
    const enabled: bool
    const maxPps: nat
    var limits: map<int, seq<int>>

    constructor (enabled: bool, max: int)
      ensures this.enabled == (enabled && max > 0) && limits == map[]
      ensures max > 0 ==> maxPps == max
    {
      this.enabled := enabled && max > 0;
      maxPps := if max > 0 then max else 0;
      limits := map[];
    }

    ghost function Queue(conn: int): seq<int>
      reads this
    {
      if conn in limits then limits[conn] else []
    }

    /** A message on a connection: it goes through unless the window is full, and no other
        connection is affected. */
    method OnMessage(conn: int, now: int) returns (accepted: bool)
      modifies this`limits
      ensures !enabled ==> accepted && limits == old(limits)
      ensures enabled ==>
                && (accepted <==> Message(old(Queue(conn)), maxPps, now).Accepted?)
                && Queue(conn) == Message(old(Queue(conn)), maxPps, now).queue
      ensures forall c :: c != conn ==> Queue(c) == old(Queue(c))
    {
      if !enabled {
        return true;
      }
      var q := if conn in limits then limits[conn] else [];
      while q != [] && now - q[0] > SECOND
        invariant Prune(q, now) == Prune(old(Queue(conn)), now)
        decreases |q|
      {
        q := q[1..];
      }
      accepted := |q| <= maxPps;
      if accepted {
        q := q + [now];
      }
      limits := limits[conn := q];
    }
  }
}
