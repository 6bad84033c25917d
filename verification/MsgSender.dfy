/** The windowed message sender (src/core/OFMsgSender.cc).

    Messages to a switch are queued; a poll sends them in packs of at most `limit`, each full
    pack followed by a barrier request.  The limit grows when the barrier is answered and
    shrinks when it is not.  The poll hands send_pack to an executor that lives on the polling
    thread itself, so the pack goes out before the poll returns (src/core/lib/poller.cc:38-65
    and 89-92, src/core/lib/qt_executor.hpp:39-55). */
module MsgSender {

  const U32: nat := 0x1_0000_0000
  const MIN_RATE: nat := 20

  // The future of the last barrier request that got out, if any.
  datatype Barrier = Invalid | Outstanding | Received

  // What goes to the switch; an attempt records when it was made and under which limit.
  datatype Out = Msg(id: int) | Attempt(limit: nat, at: int)

  datatype Config = Config(add: nat, mult: nat, wait: nat)

  datatype State = State(limit: nat, sent: nat, msgs: seq<int>, barrier: Barrier, updated: int,
                         queued: seq<int>, out: seq<Out>)

  function Init(limit: nat): State {
    State(limit, 0, [], Invalid, 0, [], [])
  }

  /** ok tells whether the agent accepted the request. */
  function SendBarrier(st: State, now: int, ok: bool): State {
    st.(barrier := if ok then Outstanding else st.barrier, updated := now, out := st.out + [Attempt(st.limit, now)])
  }

  function Min(a: nat, b: nat): nat {
    if a < b then a else b
  }

  function Max(a: int, b: int): int {
    if a < b then b else a
  }

  function Msgs(ids: seq<int>): seq<Out> {
    seq(|ids|, i requires 0 <= i < |ids| => Msg(ids[i]))
  }

  /** How many messages a pack sends. */
  function PackSize(st: State): nat {
    if st.sent >= st.limit then 0 else Min(|st.msgs|, st.limit - st.sent)
  }

  function SendPack(st: State, now: int, ok: bool): State {
    var k := PackSize(st);
    var st1 := st.(msgs := st.msgs[k..], sent := st.sent + k, out := st.out + Msgs(st.msgs[..k]));
    if k > 0 && st1.sent == st.limit then SendBarrier(st1, now, ok).(sent := 0) else st1
  }

  // Arithmetic on the 32-bit limit wraps around.
  function Wrap(n: nat): nat {
    if n < U32 then n else n % 0x1_0000_0000
  }

  function AddIncrease(st: State, c: Config): State {
    st.(limit := Wrap(st.limit + c.add))
  }

  /** Unsigned division, rounding down. */
  function Quotient(a: nat, m: nat): (q: nat)
    requires m > 0
    ensures m * q <= a < m * q + m
  {
    if a < m then 0
    else
      var q := Quotient(a - m, m);
      assert m * (q + 1) == m * q + m;
      q + 1
  }

  function MultDecrease(st: State, c: Config): State
    requires c.mult > 0
  {
    if st.limit >= Wrap(c.mult * MIN_RATE) then st.(limit := Quotient(st.limit, c.mult)) else st.(limit := MIN_RATE)
  }

  function Poll(st: State, c: Config, now: int, ok: bool): State
    requires c.mult > 0
  {
    if st.msgs == [] then st
    else
      match st.barrier
      case Invalid => SendPack(st, now, ok)
      case Received => SendPack(AddIncrease(st.(barrier := Invalid), c), now, ok)
      case Outstanding =>
        if now - st.updated > c.wait then SendBarrier(MultDecrease(st, c), now, ok) else st
  }

  datatype Event =
    | Enqueue(id: int)
    | Tick(now: int, ok: bool)
    | BarrierReply

  function Step(st: State, c: Config, e: Event): State
    requires c.mult > 0
  {
    match e
    case Enqueue(id) => st.(msgs := st.msgs + [id], queued := st.queued + [id])
    case Tick(now, ok) => Poll(st, c, now, ok)
    case BarrierReply => if st.barrier == Outstanding then st.(barrier := Received) else st
  }

  function Run(st: State, c: Config, es: seq<Event>): State
    requires c.mult > 0
  {
    if es == [] then st else Step(Run(st, c, es[..|es| - 1]), c, es[|es| - 1])
  }

  // ---------------------------------------------------------------------------
  // Nothing is lost, duplicated or reordered
  // ---------------------------------------------------------------------------

  function Sent(out: seq<Out>): seq<int> {
    if out == [] then []
    else
      var rest := Sent(out[..|out| - 1]);
      match out[|out| - 1]
      case Msg(id) => rest + [id]
      case Attempt(_, _) => rest
  }

  lemma {:induction false} SentAppend(out: seq<Out>, ids: seq<int>)
    ensures Sent(out + Msgs(ids)) == Sent(out) + ids
  {
    if ids == [] {
      assert out + Msgs(ids) == out;
    } else {
      var n := |ids| - 1;
      SentAppend(out, ids[..n]);
      assert (out + Msgs(ids))[..|out| + n] == out + Msgs(ids[..n]);
      assert ids == ids[..n] + [ids[n]];
    }
  }

  lemma {:induction false} SentAttempt(out: seq<Out>, limit: nat, at: int)
    ensures Sent(out + [Attempt(limit, at)]) == Sent(out)
  {
    assert (out + [Attempt(limit, at)])[..|out|] == out;
  }

  ghost predicate Conserved(st: State) {
    Sent(st.out) + st.msgs == st.queued
  }

  lemma {:induction false} PackConserves(st: State, now: int, ok: bool)
    requires Conserved(st)
    ensures Conserved(SendPack(st, now, ok))
  {
    var k := PackSize(st);
    SentAppend(st.out, st.msgs[..k]);
    SentAttempt(st.out + Msgs(st.msgs[..k]), st.limit, now);
    assert st.msgs == st.msgs[..k] + st.msgs[k..];
    assert Sent(st.out) + (st.msgs[..k] + st.msgs[k..]) == Sent(st.out) + st.msgs[..k] + st.msgs[k..];
  }

  lemma {:induction false} PollConserves(st: State, c: Config, now: int, ok: bool)
    requires c.mult > 0 && Conserved(st)
    ensures Conserved(Poll(st, c, now, ok))
  {
    hide SendPack;
    match st.barrier
    case Invalid => PackConserves(st, now, ok);
    case Received => PackConserves(AddIncrease(st.(barrier := Invalid), c), now, ok);
    case Outstanding => SentAttempt(st.out, MultDecrease(st, c).limit, now);
  }

  /** In every run, the messages sent, then those waiting, are exactly those queued, in order. */
  lemma {:induction false} Conservation(limit: nat, c: Config, es: seq<Event>)
    requires c.mult > 0
    ensures Conserved(Run(Init(limit), c, es))
  {
    hide Poll;
    if es != [] {
      var n := |es| - 1;
      Conservation(limit, c, es[..n]);
      var st := Run(Init(limit), c, es[..n]);
      match es[n]
      case Enqueue(id) => assert Sent(st.out) + (st.msgs + [id]) == Sent(st.out) + st.msgs + [id];
      case Tick(now, ok) => PollConserves(st, c, now, ok);
      case BarrierReply =>
    }
  }

  // ---------------------------------------------------------------------------
  // The window
  // ---------------------------------------------------------------------------

  /** Messages since the last barrier attempt. */
  function Since(out: seq<Out>): nat {
    if out == [] || out[|out| - 1].Attempt? then 0 else Since(out[..|out| - 1]) + 1
  }

  /** Every barrier attempt closes a window of exactly the limit in force, or is a retry with
      nothing sent in between. */
  ghost predicate WindowsExact(out: seq<Out>) {
    forall i :: 0 <= i < |out| && out[i].Attempt? ==> Since(out[..i]) == out[i].limit || Since(out[..i]) == 0
  }

  lemma {:induction false} SinceAppend(out: seq<Out>, ids: seq<int>)
    ensures Since(out + Msgs(ids)) == Since(out) + |ids|
  {
    if ids == [] {
      assert out + Msgs(ids) == out;
    } else {
      var n := |ids| - 1;
      SinceAppend(out, ids[..n]);
      assert (out + Msgs(ids))[..|out| + n] == out + Msgs(ids[..n]);
    }
  }

  lemma {:induction false} WindowsAppend(out: seq<Out>, ids: seq<int>)
    requires WindowsExact(out)
    ensures WindowsExact(out + Msgs(ids))
  {
    var all := out + Msgs(ids);
    forall i | 0 <= i < |all| && all[i].Attempt? ensures Since(all[..i]) == all[i].limit || Since(all[..i]) == 0 {
      assert all[..i] == out[..i];
    }
  }

  lemma {:induction false} WindowsAttempt(out: seq<Out>, limit: nat, at: int)
    requires WindowsExact(out) && (Since(out) == limit || Since(out) == 0)
    ensures WindowsExact(out + [Attempt(limit, at)]) && Since(out + [Attempt(limit, at)]) == 0
  {
    var all := out + [Attempt(limit, at)];
    forall i | 0 <= i < |all| && all[i].Attempt? ensures Since(all[..i]) == all[i].limit || Since(all[..i]) == 0 {
      assert all[..i] == out[..i];
    }
  }

  /** What every run keeps: `sent` counts the messages since the last barrier attempt and is
      below the limit, unless the limit is zero; nothing is sent behind a pending barrier; and
      every barrier attempt closes a window of exactly the limit, or is a retry. */
  ghost predicate Inv(st: State) {
    && (st.sent < st.limit || st.sent == 0)
    && Since(st.out) == st.sent && WindowsExact(st.out)
    && (st.barrier != Invalid ==> st.sent == 0)
  }

  lemma {:induction false} PackKeeps(st: State, now: int, ok: bool)
    requires Inv(st) && st.barrier == Invalid
    ensures Inv(SendPack(st, now, ok))
  {
    hide Since, WindowsExact;
    var k := PackSize(st);
    SinceAppend(st.out, st.msgs[..k]);
    WindowsAppend(st.out, st.msgs[..k]);
    var out := st.out + Msgs(st.msgs[..k]);
    if k > 0 && st.sent + k == st.limit {
      WindowsAttempt(out, st.limit, now);
    }
  }

  lemma {:induction false} PollKeeps(st: State, c: Config, now: int, ok: bool)
    requires c.mult > 0 && Inv(st)
    ensures Inv(Poll(st, c, now, ok))
  {
    hide Since, WindowsExact, SendPack;
    match st.barrier
    case Invalid => PackKeeps(st, now, ok);
    case Received => PackKeeps(AddIncrease(st.(barrier := Invalid), c), now, ok);
    case Outstanding => WindowsAttempt(st.out, MultDecrease(st, c).limit, now);
  }

  lemma {:induction false} InitKeeps(limit: nat)
    ensures Inv(Init(limit))
  {
  }

  /** In every run, whatever the ratios and even if the limit wraps around: an outstanding
      barrier means nothing was sent since; at most the limit goes out between barrier
      attempts, and each attempt but a retry closes a window of exactly that many. */
  lemma {:induction false} WindowLaw(limit: nat, c: Config, es: seq<Event>)
    requires c.mult > 0
    ensures Inv(Run(Init(limit), c, es))
  {
    hide Since, WindowsExact, Poll;
    if es == [] {
      InitKeeps(limit);
    } else {
      var n := |es| - 1;
      WindowLaw(limit, c, es[..n]);
      var st := Run(Init(limit), c, es[..n]);
      if es[n].Tick? {
        PollKeeps(st, c, es[n].now, es[n].ok);
      }
    }
  }

  // ---------------------------------------------------------------------------
  // The limit
  // ---------------------------------------------------------------------------

  lemma {:induction false} MulLe(x: nat, y: nat, m: nat)
    requires x <= y
    ensures m * x <= m * y
  {
    assert m * y == m * x + m * (y - x);
  }

  // The quotient reaches k exactly if k times the ratio fits.
  lemma {:induction false} QuotientReaches(a: nat, m: nat, k: nat)
    requires m > 0
    ensures Quotient(a, m) >= k <==> a >= m * k
  {
    var q := Quotient(a, m);
    if q >= k {
      MulLe(k, q, m);
    } else {
      MulLe(q + 1, k, m);
      assert m * (q + 1) == m * q + m;
    }
  }

  /** A decrease divides the limit, but never goes below the minimal rate. */
  lemma {:induction false} DecreaseFloor(st: State, c: Config)
    requires c.mult > 0 && c.mult * MIN_RATE < U32
    ensures MultDecrease(st, c) == st.(limit := Max(Quotient(st.limit, c.mult), MIN_RATE))
  {
    QuotientReaches(st.limit, c.mult, MIN_RATE);
  }

  /** Additive increase, multiplicative decrease: an answered barrier adds to the limit, an
      overdue one divides it, and nothing else changes it. */
  lemma {:induction false} LimitLaw(st: State, c: Config, e: Event)
    requires c.mult > 0 && c.mult * MIN_RATE < U32 && st.limit + c.add < U32
    ensures Step(st, c, e).limit ==
            if e.Tick? && st.msgs != [] && st.barrier == Received then st.limit + c.add
            else if e.Tick? && st.msgs != [] && st.barrier == Outstanding && e.now - st.updated > c.wait
            then Max(Quotient(st.limit, c.mult), MIN_RATE)
            else st.limit
  {
    hide Quotient, MultDecrease;
    DecreaseFloor(st, c);
  }

  /** The limit fits its 32 bits all along. */
  ghost predicate Fits(st: State, c: Config, es: seq<Event>)
    requires c.mult > 0
  {
    && c.mult * MIN_RATE < U32
    && forall n :: 0 <= n < |es| ==> Run(st, c, es[..n]).limit + c.add < U32
  }

  /** The limit never falls below the lesser of its initial value and the minimal rate. */
  lemma {:induction false} LimitFloor(limit: nat, c: Config, es: seq<Event>)
    requires c.mult > 0 && Fits(Init(limit), c, es)
    ensures Run(Init(limit), c, es).limit >= Min(limit, MIN_RATE)
  {
    hide Step, Quotient;
    if es != [] {
      var n := |es| - 1;
      assert forall m :: 0 <= m < n ==> es[..n][..m] == es[..m];
      LimitFloor(limit, c, es[..n]);
      LimitLaw(Run(Init(limit), c, es[..n]), c, es[n]);
    }
  }

  // ---------------------------------------------------------------------------
  // The patience of the sender
  // ---------------------------------------------------------------------------

  /** When the last barrier attempt was made; zero if there was none. */
  function LastAttempt(out: seq<Out>): int {
    if out == [] then 0
    else if out[|out| - 1].Attempt? then out[|out| - 1].at
    else LastAttempt(out[..|out| - 1])
  }

  lemma {:induction false} LastAttemptAppend(out: seq<Out>, ids: seq<int>)
    ensures LastAttempt(out + Msgs(ids)) == LastAttempt(out)
  {
    if ids == [] {
      assert out + Msgs(ids) == out;
    } else {
      var n := |ids| - 1;
      LastAttemptAppend(out, ids[..n]);
      assert (out + Msgs(ids))[..|out| + n] == out + Msgs(ids[..n]);
    }
  }

  lemma {:induction false} PackTimed(st: State, now: int, ok: bool)
    requires st.updated == LastAttempt(st.out)
    ensures SendPack(st, now, ok).updated == LastAttempt(SendPack(st, now, ok).out)
  {
    LastAttemptAppend(st.out, st.msgs[..PackSize(st)]);
    hide Msgs;
  }

  /** In every run `updated` is the time of the last barrier attempt. */
  lemma {:induction false} RunTimed(limit: nat, c: Config, es: seq<Event>)
    requires c.mult > 0
    ensures Run(Init(limit), c, es).updated == LastAttempt(Run(Init(limit), c, es).out)
  {
    hide SendPack, MultDecrease;
    if es != [] {
      var n := |es| - 1;
      RunTimed(limit, c, es[..n]);
      var st := Run(Init(limit), c, es[..n]);
      if es[n].Tick? {
        PackTimed(st, es[n].now, es[n].ok);
        PackTimed(AddIncrease(st.(barrier := Invalid), c), es[n].now, es[n].ok);
        LimitOnly(st, c);
      }
    }
  }

  /** In every run, a poll that finds messages waiting and a barrier outstanding cuts the limit and
      tries the barrier anew iff more than the wait interval has passed since the last attempt;
      otherwise it does nothing. */
  lemma {:induction false} RetryExactly(limit: nat, c: Config, es: seq<Event>, now: int, ok: bool)
    requires c.mult > 0 && c.mult * MIN_RATE < U32
    ensures var st := Run(Init(limit), c, es);
            var st' := Step(st, c, Tick(now, ok));
            st.msgs != [] && st.barrier == Outstanding ==>
              if now - LastAttempt(st.out) > c.wait then
                var l := Max(Quotient(st.limit, c.mult), MIN_RATE);
                st' == st.(limit := l, updated := now, out := st.out + [Attempt(l, now)])
              else st' == st
  {
    hide Run, Quotient;
    RunTimed(limit, c, es);
    DecreaseFloor(Run(Init(limit), c, es), c);
  }

  /** With nothing to send, a poll does nothing; a message that is queued waits its turn; and the
      reply to a barrier matters only while one is outstanding. */
  lemma {:induction false} QuietSteps(st: State, c: Config, e: Event)
    requires c.mult > 0
    ensures e.Tick? && st.msgs == [] ==> Step(st, c, e) == st
    ensures e.Enqueue? ==> Step(st, c, e) == st.(msgs := st.msgs + [e.id], queued := st.queued + [e.id])
    ensures e.BarrierReply? ==> Step(st, c, e) == if st.barrier == Outstanding then st.(barrier := Received) else st
  {
  }

  // ---------------------------------------------------------------------------
  // Progress
  // ---------------------------------------------------------------------------

  // The limit the next pack is sent under.
  function NextLimit(st: State, c: Config): nat {
    if st.barrier == Received then Wrap(st.limit + c.add) else st.limit
  }

  ghost predicate Stalled(st: State, c: Config) {
    st.barrier != Outstanding && st.sent >= NextLimit(st, c)
  }

  ghost predicate Mute(st: State, c: Config)
    requires c.mult > 0
  {
    forall es :: Run(st, c, es).out == st.out
  }

  lemma {:induction false} StalledStep(st: State, c: Config, e: Event)
    requires c.mult > 0 && Stalled(st, c)
    ensures Stalled(Step(st, c, e), c) && Step(st, c, e).out == st.out
  {
    assert Msgs([]) == [] && st.out + [] == st.out;
    assert st.msgs[..0] == [];
  }

  lemma {:induction false} StalledRun(st: State, c: Config, es: seq<Event>)
    requires c.mult > 0 && Stalled(st, c)
    ensures Stalled(Run(st, c, es), c) && Run(st, c, es).out == st.out
  {
    hide Step, Stalled;
    if es != [] {
      StalledRun(st, c, es[..|es| - 1]);
      StalledStep(Run(st, c, es[..|es| - 1]), c, es[|es| - 1]);
    }
  }

  // A queued message and a late enough poll get a sender that is not stalled to speak.
  lemma {:induction false} Speaks(st: State, c: Config)
    requires c.mult > 0 && !Stalled(st, c)
    ensures exists e, e' :: Run(st, c, [e, e']).out != st.out
  {
    var e, e' := Enqueue(0), Tick(st.updated + c.wait + 1, true);
    var st1 := Step(st, c, e);
    assert [e, e'][..1] == [e] && [e][..0] == [];
    assert Run(st, c, [e]) == st1;
    assert Run(st, c, [e, e']) == Step(st1, c, e');
    hide Run, Poll;
    PollSpeaks(st1, c, e'.now);
  }

  lemma {:induction false} PollSpeaks(st: State, c: Config, now: int)
    requires c.mult > 0 && !Stalled(st, c) && st.msgs != [] && now - st.updated > c.wait
    ensures |Poll(st, c, now, true).out| > |st.out|
  {
    hide SendPack, MultDecrease;
    if st.barrier == Outstanding {
      LimitOnly(st, c);
    } else {
      PackSpeaks(if st.barrier == Received then AddIncrease(st.(barrier := Invalid), c) else st, now);
    }
  }

  lemma {:induction false} LimitOnly(st: State, c: Config)
    requires c.mult > 0
    ensures MultDecrease(st, c).out == st.out
  {
  }

  lemma {:induction false} PackSpeaks(st: State, now: int)
    requires st.msgs != [] && st.sent < st.limit
    ensures |SendPack(st, now, true).out| > |st.out|
  {
  }

  /** A sender never puts anything on the wire again, whatever happens, iff it is stalled: no
      barrier is outstanding and as many were sent as the next pack's limit allows. */
  lemma {:induction false} StallExactly(st: State, c: Config)
    requires c.mult > 0
    ensures Mute(st, c) <==> Stalled(st, c)
  {
    if Stalled(st, c) {
      forall es ensures Run(st, c, es).out == st.out {
        StalledRun(st, c, es);
      }
    } else {
      Speaks(st, c);
    }
  }

  /** A run stalls exactly when the limit for its next pack wraps to zero or is divided to it. */
  lemma {:induction false} RunStalls(limit: nat, c: Config, es: seq<Event>)
    requires c.mult > 0
    ensures var st := Run(Init(limit), c, es);
            Mute(st, c) <==> st.barrier != Outstanding && NextLimit(st, c) == 0
  {
    WindowLaw(limit, c, es);
    StallExactly(Run(Init(limit), c, es), c);
  }

  /** A limit of one and the largest additive ratio get there with the first answered barrier. */
  lemma {:induction false} StallReached() returns (c: Config, es: seq<Event>)
    ensures c.mult > 0 && c.add < U32 && Mute(Run(Init(1), c, es), c)
  {
    c := Config(0xFFFF_FFFF, 2, 5000);
    var e1, e2, e3 := Enqueue(0), Tick(0, true), BarrierReply;
    var e := [] + [e1];
    es := e + [e2] + [e3];
    RunStep(Init(1), c, [], e1);
    RunStep(Init(1), c, e, e2);
    RunStep(Init(1), c, e + [e2], e3);
    var st := Run(Init(1), c, e);
    assert st == Init(1).(msgs := [0], queued := [0]);
    assert PackSize(st) == 1;
    var st' := Run(Init(1), c, es);
    assert st'.barrier == Received && st'.limit == 1;
    RunStalls(1, c, es);
  }

  lemma {:induction false} PackSends(st: State, now: int, ok: bool)
    ensures var st', k := SendPack(st, now, ok), PackSize(st);
            && st'.msgs == st.msgs[k..] && Sent(st'.out) == Sent(st.out) + st.msgs[..k]
            && if k > 0 && st.sent + k == st.limit
               then st'.sent == 0 && st'.barrier == (if ok then Outstanding else st.barrier) && st'.updated == now
               else st'.sent == st.sent + k && st'.barrier == st.barrier
  {
    var k := PackSize(st);
    SentAppend(st.out, st.msgs[..k]);
    SentAttempt(st.out + Msgs(st.msgs[..k]), st.limit, now);
  }

  /** With messages waiting and room in the window, a poll sends as many as fit; a barrier is
      outstanding afterwards iff that filled the window and the agent accepted the request. */
  ghost predicate SendsOn(st: State, c: Config, now: int, ok: bool)
    requires c.mult > 0
  {
    var st' := Step(st, c, Tick(now, ok));
    && st.sent < NextLimit(st, c)
    && var k := Min(|st.msgs|, NextLimit(st, c) - st.sent);
       && st'.msgs == st.msgs[k..] && Sent(st'.out) == Sent(st.out) + st.msgs[..k]
       && if st.sent + k == NextLimit(st, c)
          then st'.sent == 0 && st'.barrier == (if ok then Outstanding else Invalid) && st'.updated == now
          else st'.sent == st.sent + k && st'.barrier == Invalid
  }

  lemma {:induction false} PollSends(st: State, c: Config, now: int, ok: bool)
    requires c.mult > 0 && st.msgs != [] && st.barrier != Outstanding && st.sent < NextLimit(st, c)
    ensures SendsOn(st, c, now, ok)
  {
    hide SendPack, Sent;
    PackSends(if st.barrier == Received then AddIncrease(st.(barrier := Invalid), c) else st, now, ok);
  }

  /** So while the limit fits 32 bits no run stalls: with messages waiting and no barrier
      outstanding, the next poll sends as many as the window still takes, at least one. */
  lemma {:induction false} NeverStalls(limit: nat, c: Config, es: seq<Event>, now: int, ok: bool)
    requires limit > 0 && c.mult > 0 && Fits(Init(limit), c, es + [Tick(now, ok)])
    ensures var st := Run(Init(limit), c, es);
            && !Mute(st, c)
            && (st.msgs != [] && st.barrier != Outstanding ==> SendsOn(st, c, now, ok))
  {
    hide Run, Mute, SendsOn;
    var st, all := Run(Init(limit), c, es), es + [Tick(now, ok)];
    assert all[..|es|] == es && forall m :: 0 <= m < |es| ==> all[..m] == es[..m];
    WindowLaw(limit, c, es);
    LimitFloor(limit, c, es);
    RunStalls(limit, c, es);
    if st.msgs != [] && st.barrier != Outstanding {
      PollSends(st, c, now, ok);
    }
  }

  // n polls, with any outstanding barrier answered before each.
  function Rounds(n: nat): seq<Event> {
    if n == 0 then [] else Rounds(n - 1) + [BarrierReply, Tick(0, true)]
  }

  /** If barriers are answered, |msgs| polls are enough to empty the queue, at any point of any
      run whose limit fits 32 bits. */
  lemma {:induction false} Drains(limit: nat, c: Config, es: seq<Event>, n: nat)
    requires limit > 0 && c.mult > 0 && Fits(Init(limit), c, es + Rounds(n))
    ensures |Run(Init(limit), c, es + Rounds(n)).msgs| <= Max(0, |Run(Init(limit), c, es).msgs| - n)
  {
    hide Run, SendsOn;
    if n == 0 {
      assert es + [] == es;
    } else {
      var r, before := BarrierReply, es + Rounds(n - 1);
      var all := es + Rounds(n);
      assert all == before + [r] + [Tick(0, true)];
      assert forall m :: 0 <= m < |before| ==> all[..m] == before[..m];
      Drains(limit, c, es, n - 1);
      NeverStalls(limit, c, before + [r], 0, true);
      RunStep(Init(limit), c, before, r);
      RunStep(Init(limit), c, before + [r], Tick(0, true));
      DrainsOne(Run(Init(limit), c, before + [r]), c);
    }
  }

  lemma {:induction false} DrainsOne(st: State, c: Config)
    requires c.mult > 0 && (st.msgs != [] && st.barrier != Outstanding ==> SendsOn(st, c, 0, true))
    ensures st.barrier != Outstanding && st.msgs != [] ==> |Step(st, c, Tick(0, true)).msgs| < |st.msgs|
    ensures st.msgs == [] ==> Step(st, c, Tick(0, true)) == st
  {
  }

  lemma {:induction false} RunStep(st: State, c: Config, es: seq<Event>, e: Event)
    requires c.mult > 0
    ensures Run(st, c, es + [e]) == Step(Run(st, c, es), c, e)
  {
    assert (es + [e])[..|es|] == es;
  }

  // ---------------------------------------------------------------------------
  // The sender object
  // ---------------------------------------------------------------------------

  class MsgStatus {
    var limit: nat
    var sent: nat
    var msgs: seq<int>
    var barrier: Barrier
    var updated: int
    var out: seq<Out>
    ghost var queued: seq<int>

    constructor (limit: nat)
      ensures View() == Init(limit)
    {
      this.limit, sent, msgs, barrier, updated, out := limit, 0, [], Invalid, 0, [];
      queued := [];
    }

    ghost function View(): State
      reads this
    {
      State(limit, sent, msgs, barrier, updated, queued, out)
    }

    method Barrier(now: int, ok: bool)
      modifies this`barrier, this`updated, this`out
      ensures View() == SendBarrier(old(View()), now, ok)
    {
      if ok {
        barrier := Outstanding;
      }
      updated := now;
      out := out + [Attempt(limit, now)];
    }

    /** The sending loop takes min(queue, limit - sent) messages, whatever the two counters. */
    method Pack(now: int, ok: bool)
      modifies this`sent, this`msgs, this`barrier, this`updated, this`out
      ensures View() == SendPack(old(View()), now, ok)
    {
      ghost var st := View();
      ghost var k := PackSize(st);
      var sentInPack := 0;
      assert Msgs([]) == [] && out + [] == out;
      while msgs != [] && sentInPack < limit && sent < limit
        invariant sentInPack <= k && limit == st.limit && barrier == st.barrier && updated == st.updated
        invariant msgs == st.msgs[sentInPack..] && sent == st.sent + sentInPack
        invariant out == st.out + Msgs(st.msgs[..sentInPack])
        invariant sentInPack > 0 ==> sent < limit && sentInPack < limit
        decreases |msgs|
      {
        assert Msgs(st.msgs[..sentInPack]) + [Msg(msgs[0])] == Msgs(st.msgs[..sentInPack + 1]);
        out := out + [Msg(msgs[0])];
        msgs := msgs[1..];
        sentInPack := sentInPack + 1;
        sent := sent + 1;
        if sentInPack == limit || sent == limit {
          assert sentInPack == k;
          Barrier(now, ok);
          sent := 0;
          return;
        }
      }
      assert sentInPack == k;
    }

    method Increase(c: Config)
      modifies this`limit
      ensures View() == AddIncrease(old(View()), c)
    {
      limit := Wrap(limit + c.add);
    }

    /** With a ratio that fits, the limit is divided, but never below the minimal rate. */
    method Decrease(c: Config)
      requires c.mult > 0
      modifies this`limit
      ensures View() == MultDecrease(old(View()), c)
      ensures c.mult * MIN_RATE < U32 ==> limit == Max(Quotient(old(limit), c.mult), MIN_RATE)
    {
      if c.mult * MIN_RATE < U32 {
        DecreaseFloor(View(), c);
      }
      if limit >= Wrap(c.mult * MIN_RATE) {
        limit := Quotient(limit, c.mult);
      } else {
        limit := MIN_RATE;
      }
    }

    method Send(id: int)
      modifies this`msgs, this`queued
      ensures View() == old(View()).(msgs := old(msgs) + [id], queued := old(queued) + [id])
    {
      msgs := msgs + [id];
      queued := queued + [id];
    }

    /** One round of the poller for this switch. */
    method Polling(c: Config, now: int, ok: bool)
      requires c.mult > 0
      modifies this
      ensures View() == Poll(old(View()), c, now, ok)
    {
      hide SendPack, MultDecrease;
      if msgs == [] {
        return;
      }
      if barrier != Invalid {
        if barrier == Received {
          barrier := Invalid;
          Increase(c);
        } else {
          if now - updated > c.wait {
            Decrease(c);
            Barrier(now, ok);
          }
          return;
        }
      }
      Pack(now, ok);
    }
  }
}
