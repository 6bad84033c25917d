/** Requests to a switch and their sessions (src/core/OFAgentImpl.hpp and .cc).

    Each request queues a session with a promise and a transaction id; replies find the
    first session with their id, multipart replies accumulate, and a barrier reply closes
    every session queued up to the barrier (sections A.3.5 and A.3.8 of the OpenFlow Switch
    Specification 1.3.0).  Completing a promise twice throws. */
module Agent {

  const U32: nat := 0x1_0000_0000
  const MIN_XID: nat := 0x10000

  datatype Type =
    | Config | Desc | Role | PortDesc | PortStat | QueueStat | FlowStat | Aggregate
    | GroupStat | GroupDesc | TableStat | MeterStat | MeterConfig | MeterFeatures

  // What a session waits for: a barrier, nothing, one object, or a sequence in parts.
  datatype Kind = Barrier | NoRespond | One(ty: Type) | Many(ty: Type)

  datatype Result = Value(items: seq<int>) | NotResponded | BadValue | SwitchError

  // uid is the promise; satisfied says it has been completed; flagged is value_set.
  datatype Session = Session(uid: nat, xid: nat, kind: Kind, got: seq<int>, satisfied: bool, flagged: bool)

  datatype Thrown = Nothing | BadReply | AlreadySatisfied | Offline

  // next is the 64-bit transaction counter and taken the ids it gave to requests that have not
  // queued their session yet; log holds the completions in order.
  datatype State = State(tasks: seq<Session>, next: nat, taken: set<nat>, created: nat, log: seq<(nat, Result)>)

  const INIT := State([], MIN_XID, {}, 0, [])

  // A request first takes an id and then, under the lock, queues its session; BarrierSent is the
  // send hook, called later for every barrier request that goes out, ours or another's.
  datatype Event =
    | TakeId
    | Request(id: nat, kind: Kind, alive: bool)
    | BarrierSent(xid: nat)
    | Reply(xid: nat, ty: Type, items: seq<int>, more: bool)
    | Error(xid: nat)
    | BarrierReply(xid: nat)

  // ---------------------------------------------------------------------------
  // The steps
  // ---------------------------------------------------------------------------

  function NewSession(uid: nat, xid: nat, kind: Kind): Session {
    Session(uid, xid, kind, [], false, false)
  }

  function Push(st: State, xid: nat, kind: Kind): State {
    st.(tasks := st.tasks + [NewSession(st.created, xid, kind)], created := st.created + 1)
  }

  function DoTake(st: State): State {
    st.(next := st.next + 1, taken := st.taken + {st.next})
  }

  /** A request that has taken an id queues its session; to an offline switch it throws, but
      stays queued. */
  function DoRequest(st: State, id: nat, kind: Kind, alive: bool): (State, Thrown) {
    if id !in st.taken then (st, Nothing)
    else (Push(st.(taken := st.taken - {id}), id % 0x1_0000_0000, kind), if alive then Nothing else Offline)
  }

  function Find(tasks: seq<Session>, xid: nat): (k: nat)
    ensures k <= |tasks|
  {
    if tasks == [] || tasks[0].xid == xid then 0 else 1 + Find(tasks[1..], xid)
  }

  function FindBarrier(tasks: seq<Session>, xid: nat): (k: nat)
    ensures k <= |tasks|
  {
    if tasks == [] || (tasks[0].xid == xid && tasks[0].kind.Barrier?) then 0 else 1 + FindBarrier(tasks[1..], xid)
  }

  function Store(st: State, k: nat, s: Session): State
    requires k < |st.tasks|
  {
    st.(tasks := st.tasks[k := s])
  }

  function Without(tasks: seq<Session>, k: nat): seq<Session>
    requires k < |tasks|
  {
    tasks[..k] + tasks[k + 1..]
  }

  // Complete the promise of session k and drop the session, or throw.
  function Complete(st: State, k: nat, r: Result): (State, Thrown)
    requires k < |st.tasks|
  {
    if st.tasks[k].satisfied then (st, AlreadySatisfied)
    else (st.(tasks := Without(st.tasks, k), log := st.log + [(st.tasks[k].uid, r)]), Nothing)
  }

  predicate ChecksMore(ty: Type) {
    ty in {PortStat, QueueStat, Aggregate, GroupStat, MeterStat, MeterFeatures}
  }

  predicate WantsOne(ty: Type) {
    ty in {PortStat, QueueStat, GroupStat, MeterStat}
  }

  function OneResult(ty: Type, items: seq<int>, more: bool): Result {
    if (more && ChecksMore(ty)) || (WantsOne(ty) && |items| != 1) then BadValue else Value(items)
  }

  // A session that expects no response gets its promise broken and then the visitor
  // throws: on an error because the promise is taken, on a reply because of its type.
  function Unexpected(st: State, k: nat, error: bool): (State, Thrown)
    requires k < |st.tasks|
  {
    var s := st.tasks[k];
    if s.satisfied then (st, AlreadySatisfied)
    else (Store(st, k, s.(satisfied := true, flagged := true)).(log := st.log + [(s.uid, NotResponded)]),
          if error then AlreadySatisfied else BadReply)
  }

  function VisitReply(st: State, k: nat, ty: Type, items: seq<int>, more: bool): (State, Thrown)
    requires k < |st.tasks|
  {
    var s := st.tasks[k];
    if s.kind == One(ty) then Complete(st, k, OneResult(ty, items, more))
    else if s.kind == Many(ty) then
      var st1 := Store(st, k, s.(got := s.got + items));
      if !more then Complete(st1, k, Value(s.got + items))
      else if s.flagged then (st1.(tasks := Without(st1.tasks, k)), Nothing)
      else (st1, Nothing)
    else (st, BadReply)
  }

  function DoReply(st: State, xid: nat, ty: Type, items: seq<int>, more: bool): (State, Thrown) {
    var k := Find(st.tasks, xid);
    if xid < MIN_XID then (st, Nothing)
    else if k == |st.tasks| then (st, BadReply)
    else if st.tasks[k].kind.NoRespond? then Unexpected(st, k, false)
    else VisitReply(st, k, ty, items, more)
  }

  function DoError(st: State, xid: nat): (State, Thrown) {
    var k := Find(st.tasks, xid);
    if xid < MIN_XID then (st, Nothing)
    else if k == |st.tasks| then (st, BadReply)
    else if st.tasks[k].kind.NoRespond? then Unexpected(st, k, true)
    else Complete(st, k, SwitchError)
  }

  // What closing a session by a barrier makes of it.
  function Closed(s: Session): Session {
    s.(satisfied := true, flagged := s.flagged || !s.kind.NoRespond?)
  }

  function ClosingResult(s: Session): Result {
    if s.kind.NoRespond? then Value([]) else NotResponded
  }

  /** Close the sessions i.. up to the barrier at k, in order; an already satisfied promise
      stops the loop where it is. */
  function CloseFrom(st: State, i: nat, k: nat): (State, Thrown)
    requires i <= k < |st.tasks|
    decreases k - i
  {
    var s := st.tasks[i];
    if s.satisfied then (st, AlreadySatisfied)
    else if i == k then
      (st.(tasks := st.tasks[k + 1..], log := st.log + [(s.uid, Value([]))]), Nothing)
    else
      CloseFrom(Store(st, i, Closed(s)).(log := st.log + [(s.uid, ClosingResult(s))]), i + 1, k)
  }

  function DoBarrierReply(st: State, xid: nat): (State, Thrown) {
    var k := FindBarrier(st.tasks, xid);
    if k == |st.tasks| then (st, Nothing) else CloseFrom(st, 0, k)
  }

  function Step(st: State, e: Event): (State, Thrown) {
    match e
    case TakeId => (DoTake(st), Nothing)
    case Request(id, kind, alive) => DoRequest(st, id, kind, alive)
    case BarrierSent(xid) => (Push(st, xid, Barrier), Nothing)
    case Reply(xid, ty, items, more) => DoReply(st, xid, ty, items, more)
    case Error(xid) => DoError(st, xid)
    case BarrierReply(xid) => DoBarrierReply(st, xid)
  }

  function Run(st: State, es: seq<Event>): State {
    if es == [] then st else Step(Run(st, es[..|es| - 1]), es[|es| - 1]).0
  }

  lemma {:induction false} FindFirst(tasks: seq<Session>, xid: nat)
    ensures var k := Find(tasks, xid);
            && (k < |tasks| ==> tasks[k].xid == xid)
            && forall j :: 0 <= j < k ==> tasks[j].xid != xid
  {
    if tasks != [] && tasks[0].xid != xid {
      FindFirst(tasks[1..], xid);
    }
  }

  lemma {:induction false} FindBarrierFirst(tasks: seq<Session>, xid: nat)
    ensures var k := FindBarrier(tasks, xid);
            && (k < |tasks| ==> tasks[k].xid == xid && tasks[k].kind.Barrier?)
            && forall j :: 0 <= j < k ==> !(tasks[j].xid == xid && tasks[j].kind.Barrier?)
  {
    if tasks != [] && !(tasks[0].xid == xid && tasks[0].kind.Barrier?) {
      FindBarrierFirst(tasks[1..], xid);
    }
  }

  // ---------------------------------------------------------------------------
  // What is queued
  // ---------------------------------------------------------------------------

  /** One open session of this kind and id, with a promise of its own and nothing collected yet,
      is put at the end of the queue; nothing is completed. */
  ghost predicate Queues(st: State, st': State, xid: nat, kind: Kind) {
    && |st'.tasks| == |st.tasks| + 1 && st'.tasks[..|st.tasks|] == st.tasks && st'.log == st.log
    && var s := st'.tasks[|st.tasks|];
       && s.xid == xid && s.kind == kind && s.got == [] && !s.satisfied && !s.flagged
       && s.uid == st.created && st'.created == st.created + 1
  }

  /** A request queues its session under the id it took, whether the switch is there or not, and
      throws iff it is not; the send hook queues a barrier session for what was sent. */
  lemma {:induction false} SessionsQueued(st: State, id: nat, kind: Kind, alive: bool)
    requires id in st.taken
    ensures var (st', thrown) := Step(st, Request(id, kind, alive));
            && Queues(st, st', id % U32, kind) && st'.taken == st.taken - {id} && st'.next == st.next
            && (thrown == Offline <==> !alive) && (thrown == Nothing <==> alive)
    ensures var (st', thrown) := Step(st, BarrierSent(id));
            Queues(st, st', id, Barrier) && thrown == Nothing && st'.taken == st.taken && st'.next == st.next
    ensures var (st', thrown) := Step(st, TakeId);
            && thrown == Nothing && st'.tasks == st.tasks && st'.log == st.log
            && st'.next > st.next && forall x :: x in st'.taken <==> x in st.taken || st.next <= x < st'.next
  {
  }

  // ---------------------------------------------------------------------------
  // Every promise is completed at most once
  // ---------------------------------------------------------------------------

  /** No reply or error is addressed to a session that expects none. */
  ghost predicate Orderly(st: State, e: Event) {
    match e
    case Reply(xid, _, _, _) => Expecting(st, xid)
    case Error(xid) => Expecting(st, xid)
    case _ => true
  }

  ghost predicate Expecting(st: State, xid: nat) {
    var k := Find(st.tasks, xid);
    xid >= MIN_XID && k < |st.tasks| ==> !st.tasks[k].kind.NoRespond?
  }

  ghost predicate OrderlyRun(st: State, es: seq<Event>) {
    es == [] || (OrderlyRun(st, es[..|es| - 1]) && Orderly(Run(st, es[..|es| - 1]), es[|es| - 1]))
  }

  /** Sessions are queued in order of creation, with open promises. */
  ghost predicate Queued(st: State) {
    && (forall i :: 0 <= i < |st.tasks| ==> !st.tasks[i].satisfied && !st.tasks[i].flagged)
    && (forall i :: 0 <= i < |st.tasks| ==> st.tasks[i].uid < st.created)
    && (forall i, j :: 0 <= i < j < |st.tasks| ==> st.tasks[i].uid < st.tasks[j].uid)
  }

  ghost predicate Waits(st: State, u: nat) {
    exists i :: 0 <= i < |st.tasks| && st.tasks[i].uid == u
  }

  ghost predicate Done(log: seq<(nat, Result)>, u: nat) {
    exists i :: 0 <= i < |log| && log[i].0 == u
  }

  ghost predicate DoneOnce(log: seq<(nat, Result)>) {
    forall i, j :: 0 <= i < j < |log| ==> log[i].0 != log[j].0
  }

  /** Every promise made is either waiting in the queue or completed, never both, and none
      is completed twice. */
  ghost predicate Once(st: State) {
    && Queued(st) && DoneOnce(st.log)
    && forall u: nat :: && (u < st.created <==> Waits(st, u) || Done(st.log, u))
                        && !(Waits(st, u) && Done(st.log, u))
  }

  lemma {:induction false} DoneGrows(log: seq<(nat, Result)>, u: nat, r: Result)
    ensures forall v: nat :: Done(log + [(u, r)], v) <==> Done(log, v) || v == u
    ensures DoneOnce(log) && !Done(log, u) ==> DoneOnce(log + [(u, r)])
  {
    var log' := log + [(u, r)];
    assert log'[|log|] == (u, r);
    forall v: nat | Done(log, v) ensures Done(log', v) {
      var i :| 0 <= i < |log| && log[i].0 == v;
      assert log'[i].0 == v;
    }
    if DoneOnce(log) && !Done(log, u) {
      forall i, j | 0 <= i < j < |log'| ensures log'[i].0 != log'[j].0 {
        assert log[i].0 == log'[i].0;
      }
    }
  }

  lemma {:induction false} PushKeeps(st: State, xid: nat, kind: Kind)
    requires Once(st)
    ensures Once(Push(st, xid, kind))
  {
    var st' := Push(st, xid, kind);
    assert st'.tasks[|st.tasks|].uid == st.created;
    forall u: nat ensures Waits(st', u) <==> Waits(st, u) || u == st.created {
      if Waits(st, u) {
        var i :| 0 <= i < |st.tasks| && st.tasks[i].uid == u;
        assert st'.tasks[i].uid == u;
      }
    }
  }

  lemma {:induction false} WithoutWaits(st: State, k: nat)
    requires Queued(st) && k < |st.tasks|
    ensures var st' := st.(tasks := Without(st.tasks, k));
            Queued(st') && forall u: nat :: Waits(st', u) <==> Waits(st, u) && u != st.tasks[k].uid
  {
    var st' := st.(tasks := Without(st.tasks, k));
    assert Queued(st') by { WithoutQueued(st, k); }
    forall u: nat ensures Waits(st', u) <==> Waits(st, u) && u != st.tasks[k].uid {
      WithoutWaitsFor(st, k, u);
    }
  }

  lemma {:induction false} WithoutQueued(st: State, k: nat)
    requires Queued(st) && k < |st.tasks|
    ensures Queued(st.(tasks := Without(st.tasks, k)))
  {
    var rest := Without(st.tasks, k);
    assert forall i :: 0 <= i < |rest| ==> rest[i] == st.tasks[if i < k then i else i + 1];
  }

  lemma {:induction false} WithoutWaitsFor(st: State, k: nat, u: nat)
    requires Queued(st) && k < |st.tasks|
    ensures Waits(st.(tasks := Without(st.tasks, k)), u) <==> Waits(st, u) && u != st.tasks[k].uid
  {
    UidUnique(st, k);
    hide Queued;
    var st' := st.(tasks := Without(st.tasks, k));
    if Waits(st, u) && u != st.tasks[k].uid {
      var i :| 0 <= i < |st.tasks| && st.tasks[i].uid == u;
      assert st'.tasks[if i < k then i else i - 1].uid == u;
    }
    if Waits(st', u) {
      var i :| 0 <= i < |st'.tasks| && st'.tasks[i].uid == u;
      assert st.tasks[if i < k then i else i + 1].uid == u;
    }
  }

  lemma {:induction false} UidUnique(st: State, k: nat)
    requires Queued(st) && k < |st.tasks|
    ensures forall j :: 0 <= j < |st.tasks| && j != k ==> st.tasks[j].uid != st.tasks[k].uid
  {
  }

  lemma {:induction false} CompleteKeeps(st: State, k: nat, r: Result)
    requires Once(st) && k < |st.tasks|
    ensures Once(Complete(st, k, r).0) && Complete(st, k, r).1 == Nothing
  {
    WithoutWaits(st, k);
    assert Waits(st, st.tasks[k].uid);
    DoneGrows(st.log, st.tasks[k].uid, r);
  }

  // Storing a part changes no promise.
  lemma {:induction false} StoreKeeps(st: State, k: nat, got: seq<int>)
    requires Once(st) && k < |st.tasks|
    ensures Once(Store(st, k, st.tasks[k].(got := got)))
  {
    var st' := Store(st, k, st.tasks[k].(got := got));
    forall u: nat ensures Waits(st', u) <==> Waits(st, u) {
      if Waits(st, u) {
        var i :| 0 <= i < |st.tasks| && st.tasks[i].uid == u;
        assert st'.tasks[i].uid == u;
      }
    }
  }

  lemma {:induction false} ReplyKeeps(st: State, xid: nat, ty: Type, items: seq<int>, more: bool)
    requires Once(st) && Expecting(st, xid)
    ensures Once(DoReply(st, xid, ty, items, more).0)
  {
    var k := Find(st.tasks, xid);
    if xid >= MIN_XID && k < |st.tasks| {
      var s := st.tasks[k];
      if s.kind == One(ty) {
        CompleteKeeps(st, k, OneResult(ty, items, more));
      } else if s.kind == Many(ty) {
        StoreKeeps(st, k, s.got + items);
        CompleteKeeps(Store(st, k, s.(got := s.got + items)), k, Value(s.got + items));
      }
    }
  }

  /** Promise u, and it alone, is completed with r and leaves the queue. */
  ghost predicate Closes(st: State, st': State, u: nat, r: Result) {
    && Once(st') && !Waits(st', u) && st'.log == st.log + [(u, r)]
    && forall v: nat :: v != u ==> (Waits(st', v) <==> Waits(st, v))
  }

  lemma {:induction false} CompleteCloses(st: State, k: nat, r: Result)
    requires Once(st) && k < |st.tasks|
    ensures Closes(st, Complete(st, k, r).0, st.tasks[k].uid, r)
  {
    CompleteKeeps(st, k, r);
    WithoutWaits(st, k);
    assert Waits(st, st.tasks[k].uid);
    var st' := Complete(st, k, r).0;
    assert forall v: nat :: Waits(st', v) <==> Waits(st.(tasks := Without(st.tasks, k)), v);
  }

  /** A reply of the right type closes a single-object session at once, for good or ill. A
      configuration, description or role is taken as it comes; aggregate statistics and meter
      features only if nothing is to follow; port, queue, group and meter statistics only if,
      besides, there is exactly one object. */
  lemma {:induction false} OneReplyCloses(st: State, xid: nat, ty: Type, items: seq<int>, more: bool)
    requires Once(st) && xid >= MIN_XID && Find(st.tasks, xid) < |st.tasks|
    requires st.tasks[Find(st.tasks, xid)].kind == One(ty)
    ensures var (st', thrown) := DoReply(st, xid, ty, items, more);
            var u := st.tasks[Find(st.tasks, xid)].uid;
            && thrown == Nothing
            && (ty.Config? || ty.Desc? || ty.Role? ==> Closes(st, st', u, Value(items)))
            && (ty.Aggregate? || ty.MeterFeatures? ==> Closes(st, st', u, if more then BadValue else Value(items)))
            && (ty.PortStat? || ty.QueueStat? || ty.GroupStat? || ty.MeterStat? ==>
                  Closes(st, st', u, if !more && |items| == 1 then Value(items) else BadValue))
  {
    var k := Find(st.tasks, xid);
    CompleteKeeps(st, k, OneResult(ty, items, more));
    CompleteCloses(st, k, OneResult(ty, items, more));
    hide Closes, Find, Complete, Once;
  }

  /** An error closes the session that has its id, whatever it waits for, with that error. */
  lemma {:induction false} ErrorCloses(st: State, xid: nat)
    requires Once(st) && xid >= MIN_XID && Find(st.tasks, xid) < |st.tasks|
    requires !st.tasks[Find(st.tasks, xid)].kind.NoRespond?
    ensures var (st', thrown) := DoError(st, xid);
            thrown == Nothing && Closes(st, st', st.tasks[Find(st.tasks, xid)].uid, SwitchError)
  {
    var k := Find(st.tasks, xid);
    CompleteKeeps(st, k, SwitchError);
    CompleteCloses(st, k, SwitchError);
  }

  /** Replies and errors with an id of others, or one nobody waits for, change nothing. */
  lemma {:induction false} StrangeReplies(st: State, xid: nat, ty: Type, items: seq<int>, more: bool)
    requires xid < MIN_XID || Forgotten(st, xid)
    ensures DoReply(st, xid, ty, items, more) == (st, if xid < MIN_XID then Nothing else BadReply)
    ensures DoError(st, xid) == (st, if xid < MIN_XID then Nothing else BadReply)
  {
    FindFirst(st.tasks, xid);
  }

  // ---------------------------------------------------------------------------
  // Barriers
  // ---------------------------------------------------------------------------

  function Closings(tasks: seq<Session>): seq<(nat, Result)> {
    seq(|tasks|, i requires 0 <= i < |tasks| => (tasks[i].uid, ClosingResult(tasks[i])))
  }

  /** With open promises up to the barrier, its reply completes exactly the sessions up to
      it, in order, and leaves the later ones alone. */
  lemma {:induction false} CloseAll(st: State, i: nat, k: nat)
    requires i <= k < |st.tasks| && forall j :: i <= j <= k ==> !st.tasks[j].satisfied
    ensures CloseFrom(st, i, k) ==
            (st.(tasks := st.tasks[k + 1..],
                 log := st.log + Closings(st.tasks[i..k]) + [(st.tasks[k].uid, Value([]))]),
             Nothing)
    decreases k - i
  {
    var s := st.tasks[i];
    if i == k {
      assert st.log + Closings(st.tasks[i..k]) == st.log;
    } else {
      var st1 := Store(st, i, Closed(s)).(log := st.log + [(s.uid, ClosingResult(s))]);
      CloseAll(st1, i + 1, k);
      assert st1.tasks[k + 1..] == st.tasks[k + 1..] && st1.tasks[i + 1..k] == st.tasks[i + 1..k];
      assert Closings(st.tasks[i..k]) == [(s.uid, ClosingResult(s))] + Closings(st.tasks[i + 1..k]);
      assert st1.log + Closings(st.tasks[i + 1..k]) == st.log + Closings(st.tasks[i..k]);
    }
  }

  /** The entry that closing session s by a later barrier makes: a session that expects no
      response has succeeded, one that still waits for a response has not been responded. */
  ghost predicate ClosedBy(s: Session, entry: (nat, Result)) {
    entry.0 == s.uid &&
    match s.kind
    case NoRespond => entry.1 == Value([])
    case Barrier => entry.1 == NotResponded
    case One(_) => entry.1 == NotResponded
    case Many(_) => entry.1 == NotResponded
  }

  /** The reply to a barrier succeeds the barrier; before that, in order, it succeeds every queued
      session that expects no response and fails every other; nothing else is completed, and
      exactly what was queued behind the barrier stays. */
  ghost predicate Settles(st: State, st': State, k: nat) {
    && k < |st.tasks| && |st'.log| == |st.log| + k + 1 && st'.log[..|st.log|] == st.log
    && (forall i :: 0 <= i < k ==> ClosedBy(st.tasks[i], st'.log[|st.log| + i]))
    && st'.log[|st.log| + k] == (st.tasks[k].uid, Value([]))
    && st'.tasks == st.tasks[k + 1..]
  }

  lemma {:induction false} BarrierSettles(st: State, xid: nat)
    requires (forall i :: 0 <= i < |st.tasks| ==> !st.tasks[i].satisfied) && FindBarrier(st.tasks, xid) < |st.tasks|
    ensures var (st', thrown) := DoBarrierReply(st, xid);
            var k := FindBarrier(st.tasks, xid);
            && thrown == Nothing && Settles(st, st', k)
            && st.tasks[k].kind == Barrier && st.tasks[k].xid == xid
            && forall i :: 0 <= i < k ==> !(st.tasks[i].kind == Barrier && st.tasks[i].xid == xid)
  {
    var k := FindBarrier(st.tasks, xid);
    FindBarrierFirst(st.tasks, xid);
    CloseAll(st, 0, k);
    hide CloseFrom, FindBarrier;
    assert st.tasks[0..k] == st.tasks[..k];
    var st' := DoBarrierReply(st, xid).0;
    var added := Closings(st.tasks[..k]);
    assert st'.log == st.log + added + [(st.tasks[k].uid, Value([]))];
    forall i | 0 <= i < k ensures ClosedBy(st.tasks[i], st'.log[|st.log| + i]) {
      assert st'.log[|st.log| + i] == added[i];
    }
  }

  /** A barrier reply that belongs to no queued barrier is ignored. */
  lemma {:induction false} StrangeBarriers(st: State, xid: nat)
    requires forall i :: 0 <= i < |st.tasks| ==> !(st.tasks[i].kind == Barrier && st.tasks[i].xid == xid)
    ensures DoBarrierReply(st, xid) == (st, Nothing)
  {
    FindBarrierFirst(st.tasks, xid);
  }

  function AfterClose(st: State, k: nat): State
    requires k < |st.tasks|
  {
    st.(tasks := st.tasks[k + 1..], log := st.log + Closings(st.tasks[..k]) + [(st.tasks[k].uid, Value([]))])
  }

  lemma {:induction false} ClosingsFirst(tasks: seq<Session>, k: nat)
    requires 0 < k <= |tasks|
    ensures Closings(tasks[..k]) == [(tasks[0].uid, ClosingResult(tasks[0]))] + Closings(tasks[1..k])
  {
  }

  // Closing from the front is completing the first session again and again.
  lemma {:induction false} CloseOne(st: State, k: nat)
    requires 0 < k < |st.tasks| && !st.tasks[0].satisfied
    ensures |st.tasks[1..]| == |st.tasks| - 1 && Without(st.tasks, 0) == st.tasks[1..]
    ensures AfterClose(Complete(st, 0, ClosingResult(st.tasks[0])).0, k - 1) == AfterClose(st, k)
  {
    var s, r := st.tasks[0], (st.tasks[0].uid, ClosingResult(st.tasks[0]));
    var st1 := Complete(st, 0, ClosingResult(s)).0;
    assert st1.tasks == st.tasks[1..];
    assert st1.tasks[k - 1 + 1..] == st.tasks[k + 1..] && st1.tasks[..k - 1] == st.tasks[1..k];
    ClosingsFirst(st.tasks, k);
    hide Closings;
    assert st.log + [r] + Closings(st.tasks[1..k]) == st.log + ([r] + Closings(st.tasks[1..k]));
  }

  lemma {:induction false} CloseLast(st: State)
    requires st.tasks != [] && !st.tasks[0].satisfied
    ensures Complete(st, 0, Value([])).0 == AfterClose(st, 0)
  {
    assert st.log + Closings(st.tasks[..0]) == st.log;
    assert Without(st.tasks, 0) == st.tasks[1..];
  }

  lemma {:induction false} OpenPromise(st: State)
    requires Once(st) && st.tasks != []
    ensures !st.tasks[0].satisfied
  {
  }

  lemma {:induction false} CloseKeeps(st: State, k: nat)
    requires Once(st) && k < |st.tasks|
    ensures Once(AfterClose(st, k))
    decreases k
  {
    hide Once, AfterClose;
    OpenPromise(st);
    if k == 0 {
      CloseLast(st);
      CompleteKeeps(st, 0, Value([]));
    } else {
      var st1 := Complete(st, 0, ClosingResult(st.tasks[0])).0;
      CompleteKeeps(st, 0, ClosingResult(st.tasks[0]));
      CloseOne(st, k);
      CloseKeeps(st1, k - 1);
    }
  }

  lemma {:induction false} BarrierReplyKeeps(st: State, xid: nat)
    requires Once(st)
    ensures Once(DoBarrierReply(st, xid).0)
  {
    var k := FindBarrier(st.tasks, xid);
    if k < |st.tasks| {
      CloseAll(st, 0, k);
      assert st.tasks[0..k] == st.tasks[..k];
      assert DoBarrierReply(st, xid).0 == AfterClose(st, k);
      CloseKeeps(st, k);
    }
  }

  lemma {:induction false} CounterKeeps(st: State, st': State)
    requires Once(st) && st'.tasks == st.tasks && st'.created == st.created && st'.log == st.log
    ensures Once(st')
  {
    assert forall u: nat :: Waits(st', u) <==> Waits(st, u);
  }

  lemma {:induction false} OrderlyKeeps(st: State, e: Event)
    requires Once(st) && Orderly(st, e)
    ensures Once(Step(st, e).0)
  {
    hide Once, Push, DoReply, Complete, DoBarrierReply;
    match e
    case TakeId => CounterKeeps(st, DoTake(st));
    case Request(id, kind, alive) =>
      var st0 := st.(taken := st.taken - {id});
      CounterKeeps(st, st0);
      PushKeeps(st0, id % 0x1_0000_0000, kind);
    case BarrierSent(xid) => PushKeeps(st, xid, Barrier);
    case Reply(xid, ty, items, more) => ReplyKeeps(st, xid, ty, items, more);
    case Error(xid) =>
      var k := Find(st.tasks, xid);
      if xid >= MIN_XID && k < |st.tasks| {
        CompleteKeeps(st, k, SwitchError);
      }
    case BarrierReply(xid) => BarrierReplyKeeps(st, xid);
  }

  /** A reply or error to a session that expects none is exactly what spoils the queue. */
  lemma {:induction false} OnceExactly(st: State, e: Event)
    requires Once(st)
    ensures Once(Step(st, e).0) <==> Orderly(st, e)
  {
    if Orderly(st, e) {
      OrderlyKeeps(st, e);
    } else {
      var k := Find(st.tasks, e.xid);
      assert Step(st, e).0.tasks[k].satisfied;
    }
  }

  /** In every orderly run each promise is completed at most once, and its session leaves
      the queue in the same step. */
  lemma {:induction false} CompletedOnce(es: seq<Event>)
    requires OrderlyRun(INIT, es)
    ensures Once(Run(INIT, es))
  {
    if es != [] {
      CompletedOnce(es[..|es| - 1]);
      OrderlyKeeps(Run(INIT, es[..|es| - 1]), es[|es| - 1]);
    }
  }

  // ---------------------------------------------------------------------------
  // A barrier is a fence
  // ---------------------------------------------------------------------------

  /** The barrier session b with id x is the first barrier with that id; nothing before it
      outlives it. */
  ghost predicate Fence(st: State, b: nat, x: nat) {
    && b < st.created
    && (forall i :: 0 <= i < |st.tasks| && st.tasks[i].uid < b ==> st.tasks[i].xid != x)
    && (forall i :: 0 <= i < |st.tasks| && st.tasks[i].uid == b ==> st.tasks[i].xid == x && st.tasks[i].kind.Barrier?)
    && (Waits(st, b) || forall i :: 0 <= i < |st.tasks| ==> st.tasks[i].uid > b)
  }

  // Every later queue is made of old sessions, in some state, and newer ones.
  lemma {:induction false} FenceErase(st: State, k: nat, b: nat, x: nat)
    requires Fence(st, b, x) && k < |st.tasks| && st.tasks[k].uid != b
    ensures Fence(st.(tasks := Without(st.tasks, k)), b, x)
  {
    var st' := st.(tasks := Without(st.tasks, k));
    if Waits(st, b) {
      var i :| 0 <= i < |st.tasks| && st.tasks[i].uid == b;
      assert st'.tasks[if i < k then i else i - 1].uid == b;
    }
    assert forall i :: 0 <= i < |st'.tasks| ==> st'.tasks[i] == st.tasks[if i < k then i else i + 1];
  }

  // Only ids and kinds matter to a fence.
  lemma {:induction false} FenceSame(st: State, st': State, b: nat, x: nat)
    requires Fence(st, b, x) && st'.created == st.created && |st'.tasks| == |st.tasks|
    requires forall i :: 0 <= i < |st.tasks| ==>
               && st'.tasks[i].uid == st.tasks[i].uid && st'.tasks[i].xid == st.tasks[i].xid
               && st'.tasks[i].kind == st.tasks[i].kind
    ensures Fence(st', b, x)
  {
    if Waits(st, b) {
      var i :| 0 <= i < |st.tasks| && st.tasks[i].uid == b;
      assert st'.tasks[i].uid == b;
    }
  }

  /** A session queued later, even a second barrier with the same id, leaves the fence alone. */
  lemma {:induction false} FencePush(st: State, xid: nat, kind: Kind, b: nat, x: nat)
    requires Fence(st, b, x)
    ensures Fence(Push(st, xid, kind), b, x)
  {
    var st' := Push(st, xid, kind);
    if Waits(st, b) {
      var i :| 0 <= i < |st.tasks| && st.tasks[i].uid == b;
      assert st'.tasks[i].uid == b;
    }
  }

  lemma {:induction false} FenceDrop(st: State, st': State, k: nat, b: nat, x: nat)
    requires Queued(st) && Fence(st, b, x) && k < |st.tasks|
    requires st'.tasks == st.tasks[k + 1..] && st'.created == st.created
    ensures Fence(st', b, x)
    ensures st.tasks[k].uid >= b ==> !Waits(st', b)
  {
    assert forall i :: 0 <= i < |st'.tasks| ==> st'.tasks[i] == st.tasks[k + 1 + i];
    if Waits(st, b) {
      var i :| 0 <= i < |st.tasks| && st.tasks[i].uid == b;
      if i > k {
        assert st'.tasks[i - k - 1].uid == b;
      }
    }
  }

  lemma {:induction false} FenceClose(st: State, y: nat, b: nat, x: nat)
    requires Once(st) && Fence(st, b, x)
    ensures Fence(DoBarrierReply(st, y).0, b, x)
    ensures y == x ==> !Waits(DoBarrierReply(st, y).0, b)
  {
    var k := FindBarrier(st.tasks, y);
    FindBarrierFirst(st.tasks, y);
    if k < |st.tasks| {
      CloseAll(st, 0, k);
      FenceDrop(st, DoBarrierReply(st, y).0, k, b, x);
    }
  }

  lemma {:induction false} FenceStep(st: State, e: Event, b: nat, x: nat)
    requires Once(st) && Orderly(st, e) && Fence(st, b, x) && e != Error(x)
    ensures Fence(Step(st, e).0, b, x)
  {
    hide Fence, Once, Push, DoReply, DoError, DoBarrierReply;
    match e
    case TakeId => FenceSame(st, DoTake(st), b, x);
    case Request(id, kind, alive) =>
      var st0 := st.(taken := st.taken - {id});
      FenceSame(st, st0, b, x);
      FencePush(st0, id % 0x1_0000_0000, kind, b, x);
    case BarrierSent(xid) => FencePush(st, xid, Barrier, b, x);
    case Reply(xid, ty, items, more) => FenceReply(st, xid, ty, items, more, b, x);
    case Error(xid) => FenceError(st, xid, b, x);
    case BarrierReply(xid) => FenceClose(st, xid, b, x);
  }

  lemma {:induction false} FenceError(st: State, xid: nat, b: nat, x: nat)
    requires Once(st) && Expecting(st, xid) && Fence(st, b, x) && xid != x
    ensures Fence(DoError(st, xid).0, b, x)
  {
    var k := Find(st.tasks, xid);
    FindFirst(st.tasks, xid);
    if xid >= MIN_XID && k < |st.tasks| {
      FenceErase(st, k, b, x);
      FenceSame(st.(tasks := Without(st.tasks, k)), DoError(st, xid).0, b, x);
    }
  }

  lemma {:induction false} FenceReply(st: State, xid: nat, ty: Type, items: seq<int>, more: bool, b: nat, x: nat)
    requires Once(st) && Expecting(st, xid) && Fence(st, b, x)
    ensures Fence(DoReply(st, xid, ty, items, more).0, b, x)
  {
    var k := Find(st.tasks, xid);
    FindFirst(st.tasks, xid);
    if xid >= MIN_XID && k < |st.tasks| {
      var s := st.tasks[k];
      var st' := DoReply(st, xid, ty, items, more).0;
      if s.kind == One(ty) {
        FenceErase(st, k, b, x);
        FenceSame(st.(tasks := Without(st.tasks, k)), st', b, x);
      } else if s.kind == Many(ty) {
        var st1 := Store(st, k, s.(got := s.got + items));
        FenceSame(st, st1, b, x);
        FenceErase(st1, k, b, x);
        if !more {
          FenceSame(st1.(tasks := Without(st1.tasks, k)), st', b, x);
        }
      }
    }
  }

  ghost predicate NoErrorTo(es: seq<Event>, x: nat) {
    forall i :: 0 <= i < |es| ==> es[i] != Error(x)
  }

  lemma {:induction false} FenceRun(st: State, es: seq<Event>, b: nat, x: nat)
    requires Once(st) && Fence(st, b, x) && OrderlyRun(st, es) && NoErrorTo(es, x)
    ensures Once(Run(st, es)) && Fence(Run(st, es), b, x)
  {
    if es != [] {
      var n := |es| - 1;
      FenceRun(st, es[..n], b, x);
      OrderlyKeeps(Run(st, es[..n]), es[n]);
      FenceStep(Run(st, es[..n]), es[n], b, x);
    }
  }

  lemma {:induction false} FenceStarts(st: State, x: nat)
    requires Once(st) && x in st.taken && x < U32 && Forgotten(st, x)
    ensures var st1 := DoRequest(st, x, Barrier, true).0;
            Once(st1) && Fence(st1, st.created, x)
  {
    OrderlyKeeps(st, Request(x, Barrier, true));
    var st1 := DoRequest(st, x, Barrier, true).0;
    assert st1.tasks == st.tasks + [NewSession(st.created, x, Barrier)];
    assert st1.tasks[|st.tasks|].uid == st.created;
  }

  // What waits behind the fence is left alone by the reply that takes the fence down.
  lemma {:induction false} FenceSpares(st: State, b: nat, x: nat)
    requires Once(st) && Fence(st, b, x) && Waits(st, b)
    ensures forall v: nat :: v > b && Waits(st, v) ==> Waits(DoBarrierReply(st, x).0, v)
  {
    hide Done, DoneOnce, CloseFrom;
    var k := FindBarrier(st.tasks, x);
    FindBarrierFirst(st.tasks, x);
    var i :| 0 <= i < |st.tasks| && st.tasks[i].uid == b;
    assert k <= i;
    CloseAll(st, 0, k);
    var st' := DoBarrierReply(st, x).0;
    forall v: nat | v > b && Waits(st, v) ensures Waits(st', v) {
      var j :| 0 <= j < |st.tasks| && st.tasks[j].uid == v;
      assert st'.tasks[j - k - 1].uid == v;
    }
  }

  /** Whatever happens between a barrier request with a fresh id and its reply (the send hook
      queues a second session with that id, in between, or behind others), after the reply
      every promise made up to the barrier is completed and none of their sessions waits; and
      if the barrier was still pending, everything queued behind it waits on. */
  lemma {:induction false} BarrierIsFence(st: State, x: nat, es: seq<Event>, u: nat)
    requires Once(st) && x in st.taken && x < U32 && Forgotten(st, x)
    requires OrderlyRun(DoRequest(st, x, Barrier, true).0, es) && NoErrorTo(es, x)
    ensures var before := Run(DoRequest(st, x, Barrier, true).0, es);
            var after := DoBarrierReply(before, x).0;
            && Once(after)
            && (u <= st.created ==> Done(after.log, u) && !Waits(after, u))
            && (u > st.created && Waits(before, st.created) && Waits(before, u) ==> Waits(after, u))
  {
    hide DoRequest, Run, DoBarrierReply, Done, DoneOnce, Queued;
    var b := st.created;
    var st1 := DoRequest(st, x, Barrier, true).0;
    FenceStarts(st, x);
    FenceRun(st1, es, b, x);
    var before := Run(st1, es);
    BarrierReplyKeeps(before, x);
    FenceClose(before, x, b, x);
    CreatedGrows(before, x);
    if Waits(before, b) {
      FenceSpares(before, b, x);
    }
    if u <= b {
      Passed(DoBarrierReply(before, x).0, b, x, u);
    }
  }

  lemma {:induction false} Passed(st: State, b: nat, x: nat, u: nat)
    requires Once(st) && Fence(st, b, x) && !Waits(st, b) && u <= b
    ensures Done(st.log, u) && !Waits(st, u)
  {
  }

  lemma {:induction false} CreatedGrows(st: State, x: nat)
    requires Once(st)
    ensures DoBarrierReply(st, x).0.created == st.created
  {
    var k := FindBarrier(st.tasks, x);
    if k < |st.tasks| {
      CloseAll(st, 0, k);
    }
  }

  // ---------------------------------------------------------------------------
  // An unexpected reply wedges the queue
  // ---------------------------------------------------------------------------

  ghost predicate Wedge(s: Session, u: nat) {
    s.uid == u && s.kind.NoRespond? && s.satisfied
  }

  ghost predicate Wedged(st: State, u: nat) {
    exists i :: 0 <= i < |st.tasks| && Wedge(st.tasks[i], u)
  }

  lemma {:induction false} CloseStops(st: State, i: nat, k: nat, w: nat)
    requires i <= w <= k < |st.tasks| && st.tasks[w].satisfied
    ensures CloseFrom(st, i, k).1 == AlreadySatisfied
    ensures |CloseFrom(st, i, k).0.tasks| == |st.tasks|
    ensures CloseFrom(st, i, k).0.tasks[w..] == st.tasks[w..]
    decreases k - i
  {
    if !st.tasks[i].satisfied {
      var s := st.tasks[i];
      var st1 := Store(st, i, Closed(s)).(log := st.log + [(s.uid, ClosingResult(s))]);
      CloseStops(st1, i + 1, k, w);
      assert st1.tasks[w..] == st.tasks[w..];
    }
  }

  // What a barrier reply that stops halfway makes of a session it got to.
  ghost predicate LeftClosed(s: Session, s': Session) {
    s' == s.(satisfied := true, flagged := s'.flagged) &&
    match s.kind
    case NoRespond => s'.flagged == s.flagged
    case Barrier => s'.flagged
    case One(_) => s'.flagged
    case Many(_) => s'.flagged
  }

  /** A barrier reply that comes to a promise already completed throws there: the sessions before
      it are completed as usual but stay queued, and those from it on are as they were. */
  lemma {:induction false} CloseHalfway(st: State, i: nat, w: nat, k: nat)
    requires i <= w <= k < |st.tasks| && st.tasks[w].satisfied
    requires forall j :: i <= j < w ==> !st.tasks[j].satisfied
    ensures var (st', thrown) := CloseFrom(st, i, k);
            && thrown == AlreadySatisfied && |st'.tasks| == |st.tasks|
            && (forall j :: 0 <= j < |st.tasks| && !(i <= j < w) ==> st'.tasks[j] == st.tasks[j])
            && (forall j :: i <= j < w ==> LeftClosed(st.tasks[j], st'.tasks[j]))
            && |st'.log| == |st.log| + w - i && st'.log[..|st.log|] == st.log
            && forall j :: i <= j < w ==> ClosedBy(st.tasks[j], st'.log[|st.log| + j - i])
    decreases w - i
  {
    if i < w {
      var s := st.tasks[i];
      var st1 := Store(st, i, Closed(s)).(log := st.log + [(s.uid, ClosingResult(s))]);
      CloseHalfway(st1, i + 1, w, k);
      var st' := CloseFrom(st, i, k).0;
      assert st' == CloseFrom(st1, i + 1, k).0;
      assert st'.log[..|st.log|] == st1.log[..|st.log|] == st.log;
      assert st'.log[|st.log|] == st1.log[|st.log|];
      forall j | i <= j < w ensures ClosedBy(st.tasks[j], st'.log[|st.log| + j - i]) && LeftClosed(st.tasks[j], st'.tasks[j]) {
        assert j > i ==> st1.tasks[j] == st.tasks[j] && |st.log| + j - i == |st1.log| + j - (i + 1);
      }
    }
  }

  /** A sequence session left behind like that goes, silently, with its next part, unless that is
      the last one: then its promise is found taken, and it stays. */
  lemma {:induction false} LeftBehind(st: State, x: nat, ty: Type, items: seq<int>)
    requires x >= MIN_XID && Find(st.tasks, x) < |st.tasks|
    requires var s := st.tasks[Find(st.tasks, x)]; s.kind == Many(ty) && s.satisfied && s.flagged
    ensures DoReply(st, x, ty, items, true) == (st.(tasks := Without(st.tasks, Find(st.tasks, x))), Nothing)
    ensures var (st', thrown) := DoReply(st, x, ty, items, false);
            thrown == AlreadySatisfied && st'.log == st.log && |st'.tasks| == |st.tasks|
  {
    var k := Find(st.tasks, x);
    var s := st.tasks[k].(got := st.tasks[k].got + items);
    assert Without(Store(st, k, s).tasks, k) == Without(st.tasks, k);
  }

  // A barrier in front of the wedge closes what is in front of it, or stops there.
  lemma {:induction false} CloseBefore(st: State, i: nat, k: nat)
    requires i <= k < |st.tasks|
    ensures var t := CloseFrom(st, i, k).0.tasks;
            t == st.tasks[k + 1..] || (|t| == |st.tasks| && t[k + 1..] == st.tasks[k + 1..])
    decreases k - i
  {
    var s := st.tasks[i];
    if !s.satisfied && i < k {
      var st1 := Store(st, i, Closed(s)).(log := st.log + [(s.uid, ClosingResult(s))]);
      CloseBefore(st1, i + 1, k);
      assert st1.tasks[k + 1..] == st.tasks[k + 1..];
    }
  }

  /** A reply to the barrier x, queued behind position w, throws and closes nothing from w on. */
  ghost predicate BarrierFails(st: State, x: nat, w: nat) {
    var (st', thrown) := DoBarrierReply(st, x);
    w <= FindBarrier(st.tasks, x) < |st.tasks| ==>
      thrown == AlreadySatisfied && |st'.tasks| == |st.tasks| && st'.tasks[w..] == st.tasks[w..]
  }

  lemma {:induction false} WedgeBarrier(st: State, x: nat, w: nat, u: nat)
    requires w < |st.tasks| && Wedge(st.tasks[w], u)
    ensures Wedged(DoBarrierReply(st, x).0, u)
    ensures BarrierFails(st, x, w)
  {
    var k := FindBarrier(st.tasks, x);
    var t := DoBarrierReply(st, x).0.tasks;
    if k == |st.tasks| {
    } else if w <= k {
      CloseStops(st, 0, k, w);
      assert t[w..][0] == t[w] && st.tasks[w..][0] == st.tasks[w];
    } else {
      CloseBefore(st, 0, k);
      assert st.tasks[k + 1..][w - k - 1] == st.tasks[w];
      assert |t| == |st.tasks| ==> t[k + 1..][w - k - 1] == t[w];
    }
  }

  lemma {:induction false} WedgeErase(st: State, k: nat, u: nat)
    requires Wedged(st, u) && k < |st.tasks| && !st.tasks[k].kind.NoRespond?
    ensures Wedged(st.(tasks := Without(st.tasks, k)), u)
  {
    var st' := st.(tasks := Without(st.tasks, k));
    var i :| 0 <= i < |st.tasks| && Wedge(st.tasks[i], u);
    assert st'.tasks[if i < k then i else i - 1] == st.tasks[i];
  }

  lemma {:induction false} WedgeStore(st: State, k: nat, s: Session, u: nat)
    requires Wedged(st, u) && k < |st.tasks| && (Wedge(st.tasks[k], u) ==> Wedge(s, u))
    ensures Wedged(Store(st, k, s), u)
  {
    var i :| 0 <= i < |st.tasks| && Wedge(st.tasks[i], u);
    assert Wedge(Store(st, k, s).tasks[i], u);
  }

  lemma {:induction false} WedgePush(st: State, xid: nat, kind: Kind, u: nat)
    requires Wedged(st, u)
    ensures Wedged(Push(st, xid, kind), u)
  {
    var i :| 0 <= i < |st.tasks| && Wedge(st.tasks[i], u);
    assert Push(st, xid, kind).tasks[i] == st.tasks[i];
  }

  lemma {:induction false} WedgeReply(st: State, xid: nat, ty: Type, items: seq<int>, more: bool, u: nat)
    requires Wedged(st, u)
    ensures Wedged(DoReply(st, xid, ty, items, more).0, u)
  {
    hide Without, Find, OneResult;
    var k := Find(st.tasks, xid);
    if xid >= MIN_XID && k < |st.tasks| {
      var s := st.tasks[k];
      if s.kind.NoRespond? {
        WedgeStore(st, k, s.(satisfied := true, flagged := true), u);
      } else if s.kind == One(ty) {
        WedgeErase(st, k, u);
      } else if s.kind == Many(ty) {
        var st1 := Store(st, k, s.(got := s.got + items));
        WedgeStore(st, k, s.(got := s.got + items), u);
        WedgeErase(st1, k, u);
      }
    }
  }

  lemma {:induction false} WedgeStep(st: State, e: Event, u: nat)
    requires Wedged(st, u)
    ensures Wedged(Step(st, e).0, u)
  {
    match e
    case TakeId => assert DoTake(st).tasks == st.tasks;
    case Request(id, kind, alive) =>
      var st0 := st.(taken := st.taken - {id});
      assert Wedged(st0, u);
      WedgePush(st0, id % 0x1_0000_0000, kind, u);
    case BarrierSent(xid) => WedgePush(st, xid, Barrier, u);
    case Reply(xid, ty, items, more) => WedgeReply(st, xid, ty, items, more, u);
    case Error(xid) =>
      var k := Find(st.tasks, xid);
      if xid >= MIN_XID && k < |st.tasks| {
        if st.tasks[k].kind.NoRespond? {
          WedgeStore(st, k, st.tasks[k].(satisfied := true, flagged := true), u);
        } else {
          WedgeErase(st, k, u);
        }
      }
    case BarrierReply(xid) =>
      var w :| 0 <= w < |st.tasks| && Wedge(st.tasks[w], u);
      WedgeBarrier(st, xid, w, u);
  }

  /** An error (or reply) to a session that expects none, say an error to a flow-mod, leaves
      that session in the queue for good. */
  lemma {:induction false} WedgeStarts(st: State, e: Event)
    requires Once(st) && !Orderly(st, e)
    ensures var k := Find(st.tasks, e.xid);
            k < |st.tasks| &&
            var (st', thrown) := Step(st, e);
            && Wedged(st', st.tasks[k].uid) && st'.log == st.log + [(st.tasks[k].uid, NotResponded)]
            && thrown == if e.Error? then AlreadySatisfied else BadReply
  {
    var k := Find(st.tasks, e.xid);
    assert Wedge(Step(st, e).0.tasks[k], st.tasks[k].uid);
  }

  /** A request that expects no response and an error in return get there. */
  lemma {:induction false} WedgeReached() returns (es: seq<Event>)
    ensures Wedged(Run(INIT, es), 0) && Run(INIT, es).log == [(0, NotResponded)]
  {
    var e1, e2, e3 := TakeId, Request(MIN_XID, NoRespond, true), Error(MIN_XID);
    es := [] + [e1] + [e2] + [e3];
    RunThen(INIT, [], e1);
    RunThen(INIT, [] + [e1], e2);
    RunThen(INIT, [] + [e1] + [e2], e3);
    var st := Run(INIT, [] + [e1] + [e2]);
    assert st.tasks == [NewSession(0, MIN_XID, NoRespond)];
    assert Find(st.tasks, MIN_XID) == 0;
    assert Wedge(Run(INIT, es).tasks[0], 0);
  }

  lemma {:induction false} RunThen(st: State, es: seq<Event>, e: Event)
    ensures Run(st, es + [e]) == Step(Run(st, es), e).0
  {
    assert (es + [e])[..|es|] == es;
  }

  lemma {:induction false} WedgedForever(st: State, es: seq<Event>, u: nat)
    requires Wedged(st, u)
    ensures Wedged(Run(st, es), u)
  {
    if es != [] {
      WedgedForever(st, es[..|es| - 1], u);
      WedgeStep(Run(st, es[..|es| - 1]), es[|es| - 1], u);
    }
  }

  /** From then on, in every run, the reply to any barrier queued behind it throws and closes
      nothing at or behind it. */
  lemma {:induction false} BarriersFailForever(st: State, es: seq<Event>, x: nat, u: nat) returns (w: nat)
    requires Wedged(st, u)
    ensures w < |Run(st, es).tasks| && Wedge(Run(st, es).tasks[w], u)
    ensures BarrierFails(Run(st, es), x, w)
  {
    WedgedForever(st, es, u);
    w :| w < |Run(st, es).tasks| && Wedge(Run(st, es).tasks[w], u);
    WedgeBarrier(Run(st, es), x, w, u);
  }

  // ---------------------------------------------------------------------------
  // Multipart reassembly
  // ---------------------------------------------------------------------------

  /** The only session with id x is an open sequence session that has collected got. */
  ghost predicate Collects(st: State, x: nat, u: nat, ty: Type, got: seq<int>) {
    exists k :: && 0 <= k < |st.tasks| && st.tasks[k] == Session(u, x, Many(ty), got, false, false)
                && forall j :: 0 <= j < |st.tasks| && j != k ==> st.tasks[j].xid != x
  }

  ghost predicate Forgotten(st: State, x: nat) {
    forall j :: 0 <= j < |st.tasks| ==> st.tasks[j].xid != x
  }

  /** Nothing but further parts happens to x: the id is not reused, the last part has not come,
      the switch reports no error for it, and no barrier queued behind it is answered. Replies
      of another type are rejected and do not matter. */
  ghost predicate Undisturbed(st: State, e: Event, x: nat, ty: Type) {
    match e
    case TakeId => true
    case Request(id, _, _) => id % 0x1_0000_0000 != x
    case BarrierSent(y) => y != x
    case Reply(y, ty', _, more) => y == x && ty' == ty ==> more
    case Error(y) => y != x
    case BarrierReply(y) =>
      var k := FindBarrier(st.tasks, y);
      k < |st.tasks| ==> forall j :: 0 <= j <= k ==> st.tasks[j].xid != x
  }

  ghost predicate UndisturbedRun(st: State, es: seq<Event>, x: nat, ty: Type) {
    es == [] || (UndisturbedRun(st, es[..|es| - 1], x, ty) && Undisturbed(Run(st, es[..|es| - 1]), es[|es| - 1], x, ty))
  }

  /** The parts of the type ty addressed to x, in order of arrival. */
  ghost function Parts(es: seq<Event>, x: nat, ty: Type): seq<int> {
    if es == [] then []
    else Parts(es[..|es| - 1], x, ty) + PartOf(es[|es| - 1], x, ty)
  }

  function PartOf(e: Event, x: nat, ty: Type): seq<int> {
    if e.Reply? && e.xid == x && e.ty == ty then e.items else []
  }

  lemma {:induction false} CollectsErase(st: State, i: nat, x: nat, u: nat, ty: Type, got: seq<int>)
    requires Collects(st, x, u, ty, got) && i < |st.tasks| && st.tasks[i].xid != x
    ensures Collects(st.(tasks := Without(st.tasks, i)), x, u, ty, got)
  {
    var st' := st.(tasks := Without(st.tasks, i));
    var k :| && 0 <= k < |st.tasks| && st.tasks[k] == Session(u, x, Many(ty), got, false, false)
             && forall j :: 0 <= j < |st.tasks| && j != k ==> st.tasks[j].xid != x;
    var k' := if k < i then k else k - 1;
    assert st'.tasks[k'] == st.tasks[k];
    forall j | 0 <= j < |st'.tasks| && j != k' ensures st'.tasks[j].xid != x {
      assert st'.tasks[j] == st.tasks[if j < i then j else j + 1];
    }
  }

  lemma {:induction false} CollectsStore(st: State, i: nat, s: Session, x: nat, u: nat, ty: Type, got: seq<int>)
    requires Collects(st, x, u, ty, got) && i < |st.tasks| && st.tasks[i].xid != x && s.xid != x
    ensures Collects(Store(st, i, s), x, u, ty, got)
  {
    var k :| && 0 <= k < |st.tasks| && st.tasks[k] == Session(u, x, Many(ty), got, false, false)
             && forall j :: 0 <= j < |st.tasks| && j != k ==> st.tasks[j].xid != x;
    var t := Store(st, i, s).tasks;
    assert t[k] == st.tasks[k];
  }

  lemma {:induction false} CollectsPush(st: State, y: nat, kind: Kind, x: nat, u: nat, ty: Type, got: seq<int>)
    requires Collects(st, x, u, ty, got) && y != x
    ensures Collects(Push(st, y, kind), x, u, ty, got)
  {
    var k :| && 0 <= k < |st.tasks| && st.tasks[k] == Session(u, x, Many(ty), got, false, false)
             && forall j :: 0 <= j < |st.tasks| && j != k ==> st.tasks[j].xid != x;
    assert Push(st, y, kind).tasks[k] == st.tasks[k];
  }

  // The queue lost its first b + 1 sessions, none of which had the id.
  lemma {:induction false} CollectsDrop(st: State, st': State, b: nat, x: nat, u: nat, ty: Type, got: seq<int>)
    requires Collects(st, x, u, ty, got) && b < |st.tasks| && forall j :: 0 <= j <= b ==> st.tasks[j].xid != x
    requires st'.tasks == st.tasks[b + 1..]
    ensures Collects(st', x, u, ty, got)
  {
    var k :| && 0 <= k < |st.tasks| && st.tasks[k] == Session(u, x, Many(ty), got, false, false)
             && forall j :: 0 <= j < |st.tasks| && j != k ==> st.tasks[j].xid != x;
    assert st'.tasks[k - b - 1] == st.tasks[k];
    assert forall j :: 0 <= j < |st'.tasks| ==> st'.tasks[j] == st.tasks[j + b + 1];
  }

  // Its first b + 1 sessions, none of which had the id, changed but kept their ids.
  lemma {:induction false} CollectsTail(st: State, st': State, b: nat, x: nat, u: nat, ty: Type, got: seq<int>)
    requires Collects(st, x, u, ty, got) && b < |st.tasks| && forall j :: 0 <= j <= b ==> st.tasks[j].xid != x
    requires |st'.tasks| == |st.tasks| && forall j :: 0 <= j <= b ==> st'.tasks[j].xid == st.tasks[j].xid
    requires st'.tasks[b + 1..] == st.tasks[b + 1..]
    ensures Collects(st', x, u, ty, got)
  {
    var k :| && 0 <= k < |st.tasks| && st.tasks[k] == Session(u, x, Many(ty), got, false, false)
             && forall j :: 0 <= j < |st.tasks| && j != k ==> st.tasks[j].xid != x;
    forall j | b < j < |st.tasks| ensures st'.tasks[j] == st.tasks[j] {
      assert st'.tasks[b + 1..][j - b - 1] == st.tasks[b + 1..][j - b - 1];
    }
  }

  lemma {:induction false} CollectsBarrier(st: State, y: nat, x: nat, u: nat, ty: Type, got: seq<int>)
    requires Collects(st, x, u, ty, got) && Undisturbed(st, BarrierReply(y), x, ty)
    ensures Collects(DoBarrierReply(st, y).0, x, u, ty, got)
  {
    hide CloseFrom, FindBarrier, Collects;
    var b := FindBarrier(st.tasks, y);
    if b < |st.tasks| {
      var st' := CloseFrom(st, 0, b).0;
      CloseBefore(st, 0, b);
      CloseIds(st, 0, b);
      if st'.tasks == st.tasks[b + 1..] {
        CollectsDrop(st, st', b, x, u, ty, got);
      } else {
        CollectsTail(st, st', b, x, u, ty, got);
      }
    }
  }

  // Closing changes no id.
  lemma {:induction false} CloseIds(st: State, i: nat, k: nat)
    requires i <= k < |st.tasks|
    ensures var t := CloseFrom(st, i, k).0.tasks;
            |t| == |st.tasks| ==> forall j :: 0 <= j < |t| ==> t[j].xid == st.tasks[j].xid
    decreases k - i
  {
    var s := st.tasks[i];
    if !s.satisfied && i < k {
      var st1 := Store(st, i, Closed(s)).(log := st.log + [(s.uid, ClosingResult(s))]);
      CloseIds(st1, i + 1, k);
    }
  }

  lemma {:induction false} CollectsOwn(st: State, items: seq<int>, x: nat, u: nat, ty: Type, got: seq<int>)
    requires Collects(st, x, u, ty, got) && x >= MIN_XID
    ensures Collects(DoReply(st, x, ty, items, true).0, x, u, ty, got + items)
  {
    var k := Find(st.tasks, x);
    FindFirst(st.tasks, x);
    var st' := DoReply(st, x, ty, items, true).0;
    assert st'.tasks[k] == Session(u, x, Many(ty), got + items, false, false);
  }

  lemma {:induction false} OtherTypeRejected(st: State, ty': Type, items: seq<int>, more: bool, x: nat, u: nat, ty: Type, got: seq<int>)
    requires Collects(st, x, u, ty, got) && x >= MIN_XID && ty' != ty
    ensures DoReply(st, x, ty', items, more) == (st, BadReply)
  {
    FindFirst(st.tasks, x);
  }

  // Only the queue matters to a collecting session.
  lemma {:induction false} CollectsSame(st: State, st': State, x: nat, u: nat, ty: Type, got: seq<int>)
    requires Collects(st, x, u, ty, got) && st'.tasks == st.tasks
    ensures Collects(st', x, u, ty, got)
  {
  }

  lemma {:induction false} CollectsComplete(st: State, k: nat, r: Result, x: nat, u: nat, ty: Type, got: seq<int>)
    requires Collects(st, x, u, ty, got) && k < |st.tasks| && st.tasks[k].xid != x
    ensures Collects(Complete(st, k, r).0, x, u, ty, got)
  {
    CollectsErase(st, k, x, u, ty, got);
    CollectsSame(st.(tasks := Without(st.tasks, k)),
                 st.(tasks := Without(st.tasks, k), log := st.log + [(st.tasks[k].uid, r)]), x, u, ty, got);
  }

  lemma {:induction false} CollectsUnexpected(st: State, k: nat, error: bool, x: nat, u: nat, ty: Type, got: seq<int>)
    requires Collects(st, x, u, ty, got) && k < |st.tasks| && st.tasks[k].xid != x
    ensures Collects(Unexpected(st, k, error).0, x, u, ty, got)
  {
    var s := st.tasks[k].(satisfied := true, flagged := true);
    CollectsStore(st, k, s, x, u, ty, got);
    if !st.tasks[k].satisfied {
      CollectsSame(Store(st, k, s), Unexpected(st, k, error).0, x, u, ty, got);
    }
  }

  lemma {:induction false} CollectsError(st: State, y: nat, x: nat, u: nat, ty: Type, got: seq<int>)
    requires Collects(st, x, u, ty, got) && y != x
    ensures Collects(DoError(st, y).0, x, u, ty, got)
  {
    var k := Find(st.tasks, y);
    FindFirst(st.tasks, y);
    if y >= MIN_XID && k < |st.tasks| {
      CollectsUnexpected(st, k, true, x, u, ty, got);
      CollectsComplete(st, k, SwitchError, x, u, ty, got);
    }
  }

  lemma {:induction false} CollectsReply(st: State, e: Event, x: nat, u: nat, ty: Type, got: seq<int>)
    requires Collects(st, x, u, ty, got) && e.Reply? && e.xid != x
    ensures Collects(Step(st, e).0, x, u, ty, got)
  {
    hide Collects, Complete, Unexpected, Without;
    var k := Find(st.tasks, e.xid);
    FindFirst(st.tasks, e.xid);
    if e.xid >= MIN_XID && k < |st.tasks| {
      CollectsUnexpected(st, k, false, x, u, ty, got);
      CollectsComplete(st, k, OneResult(e.ty, e.items, e.more), x, u, ty, got);
      var s := st.tasks[k];
      var s1 := s.(got := s.got + e.items);
      var st1 := Store(st, k, s1);
      CollectsStore(st, k, s1, x, u, ty, got);
      CollectsErase(st1, k, x, u, ty, got);
      CollectsComplete(st1, k, Value(s.got + e.items), x, u, ty, got);
    }
  }

  lemma {:induction false} CollectsStep(st: State, e: Event, x: nat, u: nat, ty: Type, got: seq<int>)
    requires Collects(st, x, u, ty, got) && Undisturbed(st, e, x, ty) && x >= MIN_XID
    ensures Collects(Step(st, e).0, x, u, ty, got + PartOf(e, x, ty))
  {
    assert got + [] == got;
    match e
    case TakeId => CollectsSame(st, DoTake(st), x, u, ty, got);
    case Request(id, kind, alive) =>
      var st0 := st.(taken := st.taken - {id});
      CollectsSame(st, st0, x, u, ty, got);
      CollectsPush(st0, id % 0x1_0000_0000, kind, x, u, ty, got);
    case BarrierSent(y) => CollectsPush(st, y, Barrier, x, u, ty, got);
    case Reply(y, ty', items, more) =>
      if y == x && ty' == ty {
        CollectsOwn(st, items, x, u, ty, got);
      } else if y == x {
        OtherTypeRejected(st, ty', items, more, x, u, ty, got);
      } else {
        CollectsReply(st, e, x, u, ty, got);
      }
    case Error(y) => CollectsError(st, y, x, u, ty, got);
    case BarrierReply(y) => CollectsBarrier(st, y, x, u, ty, got);
  }

  /** However the parts of different requests interleave, and whatever else happens to other
      sessions, a sequence session holds the concatenation of its own parts in order. */
  lemma {:induction false} Reassembly(st: State, es: seq<Event>, x: nat, u: nat, ty: Type)
    requires Collects(st, x, u, ty, []) && UndisturbedRun(st, es, x, ty) && x >= MIN_XID
    ensures Collects(Run(st, es), x, u, ty, Parts(es, x, ty))
  {
    if es != [] {
      var n := |es| - 1;
      Reassembly(st, es[..n], x, u, ty);
      CollectsStep(Run(st, es[..n]), es[n], x, u, ty, Parts(es[..n], x, ty));
    }
  }

  /** The part without the "more" flag delivers the whole sequence to the session's own
      promise and forgets the id. */
  lemma {:induction false} LastPartDelivers(st: State, es: seq<Event>, x: nat, u: nat, ty: Type, items: seq<int>)
    requires Collects(st, x, u, ty, []) && UndisturbedRun(st, es, x, ty) && x >= MIN_XID
    ensures var before := Run(st, es);
            var (after, thrown) := DoReply(before, x, ty, items, false);
            && thrown == Nothing
            && after.log == before.log + [(u, Value(Parts(es, x, ty) + items))]
            && Forgotten(after, x)
  {
    Reassembly(st, es, x, u, ty);
    Delivered(Run(st, es), x, u, ty, Parts(es, x, ty), items);
  }

  lemma {:induction false} Delivered(st: State, x: nat, u: nat, ty: Type, got: seq<int>, items: seq<int>)
    requires Collects(st, x, u, ty, got) && x >= MIN_XID
    ensures var (st', thrown) := DoReply(st, x, ty, items, false);
            && thrown == Nothing
            && st'.log == st.log + [(u, Value(got + items))]
            && Forgotten(st', x)
  {
    var k := Find(st.tasks, x);
    FindFirst(st.tasks, x);
    var s1 := st.tasks[k].(got := got + items);
    var st' := DoReply(st, x, ty, items, false).0;
    assert st'.tasks == Without(Store(st, k, s1).tasks, k);
    forall j | 0 <= j < |st'.tasks| ensures st'.tasks[j].xid != x {
      assert st'.tasks[j] == st.tasks[if j < k then j else j + 1];
    }
  }

  /** Nobody queues a session under the id x. */
  ghost predicate NotReused(e: Event, x: nat) {
    (e.Request? ==> e.id % 0x1_0000_0000 != x) && (e.BarrierSent? ==> e.xid != x)
  }

  ghost predicate NeverReused(es: seq<Event>, x: nat) {
    forall i :: 0 <= i < |es| ==> NotReused(es[i], x)
  }

  // Erasing session k, replacing it by one of the same id, or both, brings no id back.
  lemma {:induction false} ForgottenErase(st: State, k: nat, s: Session, x: nat)
    requires Forgotten(st, x) && k < |st.tasks| && s.xid == st.tasks[k].xid
    ensures Forgotten(st.(tasks := Without(st.tasks, k)), x) && Forgotten(Store(st, k, s), x)
    ensures Forgotten(st.(tasks := Without(Store(st, k, s).tasks, k)), x)
  {
  }

  lemma {:induction false} ForgottenReply(st: State, e: Event, x: nat)
    requires Forgotten(st, x) && (e.Reply? || e.Error?)
    ensures Forgotten(Step(st, e).0, x)
  {
    hide Find, Without, OneResult;
    var k := Find(st.tasks, e.xid);
    if k < |st.tasks| {
      var s := st.tasks[k];
      ForgottenErase(st, k, s.(satisfied := true, flagged := true), x);
      if e.Reply? {
        ForgottenErase(st, k, s.(got := s.got + e.items), x);
      }
    }
  }

  lemma {:induction false} ForgottenStep(st: State, e: Event, x: nat)
    requires Forgotten(st, x) && NotReused(e, x)
    ensures Forgotten(Step(st, e).0, x)
  {
    hide CloseFrom, Find, FindBarrier, DoReply, DoError;
    match e
    case Reply(_, _, _, _) => ForgottenReply(st, e, x);
    case Error(_) => ForgottenReply(st, e, x);
    case BarrierReply(y) =>
      var k := FindBarrier(st.tasks, y);
      if k < |st.tasks| {
        CloseBefore(st, 0, k);
        CloseIds(st, 0, k);
      }
    case _ =>
  }

  /** Once the id is forgotten, and as long as it is not reused, every reply with it is a bad
      reply and changes nothing. */
  lemma {:induction false} LateReplyRejected(st: State, es: seq<Event>, x: nat, ty: Type, items: seq<int>, more: bool)
    requires Forgotten(st, x) && NeverReused(es, x) && x >= MIN_XID
    ensures Forgotten(Run(st, es), x)
    ensures DoReply(Run(st, es), x, ty, items, more) == (Run(st, es), BadReply)
  {
    if es != [] {
      var n := |es| - 1;
      LateReplyRejected(st, es[..n], x, ty, items, more);
      ForgottenStep(Run(st, es[..n]), es[n], x);
    }
    FindFirst(Run(st, es).tasks, x);
  }

  // ---------------------------------------------------------------------------
  // Transaction ids do not collide before the counter wraps
  // ---------------------------------------------------------------------------

  ghost function Takes(es: seq<Event>): nat {
    if es == [] then 0
    else Takes(es[..|es| - 1]) + if es[|es| - 1].TakeId? then 1 else 0
  }

  /** A barrier that goes out has an id below the agent's own, or one whose session is queued. */
  ghost predicate SentLater(st: State, es: seq<Event>) {
    es == [] || (var n := |es| - 1;
                 var before := Run(st, es[..n]);
                 SentLater(st, es[..n]) && (es[n].BarrierSent? ==> es[n].xid < before.next && es[n].xid !in before.taken))
  }

  ghost predicate IdsBelow(tasks: seq<Session>, n: nat, taken: set<nat>) {
    forall i :: 0 <= i < |tasks| ==> tasks[i].xid < n && tasks[i].xid !in taken
  }

  /** Queued ids have been handed out, those handed out and not queued are nobody's. */
  ghost predicate IdsOk(st: State) {
    IdsBelow(st.tasks, st.next, st.taken) && forall x :: x in st.taken ==> MIN_XID <= x < st.next
  }

  // The queue without session k, or with k replaced by s, or both.
  lemma {:induction false} IdsErase(tasks: seq<Session>, k: nat, s: Session, n: nat, taken: set<nat>)
    requires IdsBelow(tasks, n, taken) && k < |tasks| && s.xid == tasks[k].xid
    ensures IdsBelow(Without(tasks, k), n, taken) && IdsBelow(tasks[k := s], n, taken)
    ensures IdsBelow(Without(tasks[k := s], k), n, taken)
  {
  }

  lemma {:induction false} ReplyIds(st: State, xid: nat, ty: Type, items: seq<int>, more: bool)
    requires IdsOk(st)
    ensures var st' := DoReply(st, xid, ty, items, more).0; st'.next == st.next && IdsOk(st')
  {
    hide Find, OneResult, Without, IdsBelow;
    var k := Find(st.tasks, xid);
    if k < |st.tasks| {
      var s := st.tasks[k];
      IdsErase(st.tasks, k, s.(got := s.got + items), st.next, st.taken);
      IdsErase(st.tasks, k, s.(satisfied := true, flagged := true), st.next, st.taken);
    }
  }

  lemma {:induction false} ErrorIds(st: State, xid: nat)
    requires IdsOk(st)
    ensures var st' := DoError(st, xid).0; st'.next == st.next && IdsOk(st')
  {
    hide Find, Without, IdsBelow;
    var k := Find(st.tasks, xid);
    if k < |st.tasks| {
      IdsErase(st.tasks, k, st.tasks[k].(satisfied := true, flagged := true), st.next, st.taken);
    }
  }

  lemma {:induction false} CloseIdsOk(st: State, xid: nat)
    requires IdsOk(st)
    ensures var st' := DoBarrierReply(st, xid).0; st'.next == st.next && IdsOk(st')
  {
    hide CloseFrom, FindBarrier;
    var k := FindBarrier(st.tasks, xid);
    if k < |st.tasks| {
      CloseBefore(st, 0, k);
      CloseIds(st, 0, k);
      CloseCounter(st, 0, k);
    }
  }

  lemma {:induction false} StepIds(st: State, e: Event)
    requires MIN_XID <= st.next < U32 && IdsOk(st)
    requires e.BarrierSent? ==> e.xid < st.next && e.xid !in st.taken
    ensures var st' := Step(st, e).0;
            st'.next == st.next + (if e.TakeId? then 1 else 0) && IdsOk(st')
  {
    hide DoReply, DoError, DoBarrierReply;
    match e
    case Reply(xid, ty, items, more) => ReplyIds(st, xid, ty, items, more);
    case Error(xid) => ErrorIds(st, xid);
    case BarrierReply(xid) => CloseIdsOk(st, xid);
    case _ =>
  }

  lemma {:induction false} CloseCounter(st: State, i: nat, k: nat)
    requires i <= k < |st.tasks|
    ensures CloseFrom(st, i, k).0.next == st.next && CloseFrom(st, i, k).0.taken == st.taken
    decreases k - i
  {
    var s := st.tasks[i];
    if !s.satisfied && i < k {
      CloseCounter(Store(st, i, Closed(s)).(log := st.log + [(s.uid, ClosingResult(s))]), i + 1, k);
    }
  }

  /** With fewer than 2^32 - 0x10000 requests, however their steps interleave, an id handed out
      and not yet queued is on no session. */
  lemma {:induction false} IdsFresh(es: seq<Event>)
    requires Takes(es) < U32 - MIN_XID && SentLater(INIT, es)
    ensures var st := Run(INIT, es);
            st.next == MIN_XID + Takes(es) && IdsOk(st)
  {
    hide IdsOk, Step;
    if es == [] {
      InitIds();
    } else {
      var n := |es| - 1;
      IdsFresh(es[..n]);
      StepIds(Run(INIT, es[..n]), es[n]);
    }
  }

  lemma {:induction false} InitIds()
    ensures IdsOk(INIT)
  {
  }

  /** So a new sequence request starts collecting, with nothing yet. */
  lemma {:induction false} RequestCollects(es: seq<Event>, x: nat, ty: Type)
    requires Takes(es) < U32 - MIN_XID && SentLater(INIT, es) && x in Run(INIT, es).taken
    ensures var st := Run(INIT, es);
            x >= MIN_XID && Collects(DoRequest(st, x, Many(ty), true).0, x, st.created, ty, [])
  {
    hide Run;
    IdsFresh(es);
    var st := Run(INIT, es);
    var st' := DoRequest(st, x, Many(ty), true).0;
    assert st'.tasks[|st.tasks|] == Session(st.created, x, Many(ty), [], false, false);
  }

  /** And a new barrier request is a fence from the start. */
  lemma {:induction false} RequestFences(es: seq<Event>, x: nat)
    requires Takes(es) < U32 - MIN_XID && SentLater(INIT, es) && OrderlyRun(INIT, es) && x in Run(INIT, es).taken
    ensures var st := Run(INIT, es);
            Once(st) && x < U32 && Forgotten(st, x) && Fence(DoRequest(st, x, Barrier, true).0, st.created, x)
  {
    IdsFresh(es);
    CompletedOnce(es);
    hide Run, Once, Fence;
    FenceStarts(Run(INIT, es), x);
  }
}
