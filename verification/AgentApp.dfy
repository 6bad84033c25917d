/** The agent object: sessions are queued, filled, completed and erased in place by loops
    (src/core/OFAgentImpl.hpp and .cc), and every method refines the matching step. */
module AgentApp {
  import opened Agent

  class OFAgent {
    var tasks: seq<Session>
    var next: nat
    ghost var taken: set<nat>
    var created: nat
    var log: seq<(nat, Result)>

    constructor ()
      ensures View() == INIT
    {
      tasks, next, created, log := [], MIN_XID, 0, [];
      taken := {};
    }

    ghost function View(): State
      reads this
    {
      State(tasks, next, taken, created, log)
    }

    method Enqueue(xid: nat, kind: Kind)
      modifies this`tasks, this`created
      ensures View() == Push(old(View()), xid, kind)
    {
      tasks := tasks + [NewSession(created, xid, kind)];
      created := created + 1;
    }

    /** The first half of a request, outside the lock. */
    method TakeXid() returns (id: nat)
      modifies this`next, this`taken
      ensures id == old(next) && View() == DoTake(old(View()))
    {
      id := next;
      next := next + 1;
      taken := taken + {id};
    }

    /** The second half, under the lock. */
    method Request(id: nat, kind: Kind, alive: bool) returns (thrown: Thrown)
      requires id in taken
      modifies this`tasks, this`taken, this`created
      ensures (View(), thrown) == DoRequest(old(View()), id, kind, alive)
    {
      taken := taken - {id};
      Enqueue(id % 0x1_0000_0000, kind);
      thrown := if alive then Nothing else Offline;
    }

    /** Called for every barrier request that goes out, whoever sent it. */
    method SendHook(xid: nat)
      modifies this`tasks, this`created
      ensures View() == Push(old(View()), xid, Barrier)
    {
      Enqueue(xid, Barrier);
    }

    method FindTask(xid: nat) returns (k: nat)
      ensures k == Find(tasks, xid)
    {
      k := 0;
      while k < |tasks| && tasks[k].xid != xid
        invariant 0 <= k <= |tasks|
        invariant Find(tasks, xid) == k + Find(tasks[k..], xid)
      {
        assert tasks[k..][1..] == tasks[k + 1..];
        k := k + 1;
      }
    }

    method SetPromise(k: nat, r: Result) returns (thrown: Thrown)
      requires k < |tasks|
      modifies this`tasks, this`log
      ensures old(tasks[k].satisfied) ==> thrown == AlreadySatisfied && View() == old(View())
      ensures !old(tasks[k].satisfied) ==>
                && thrown == Nothing
                && View() == Store(old(View()), k, old(tasks[k]).(satisfied := true, flagged := true))
                               .(log := old(log) + [(old(tasks[k].uid), r)])
    {
      if tasks[k].satisfied {
        return AlreadySatisfied;
      }
      log := log + [(tasks[k].uid, r)];
      tasks := tasks[k := tasks[k].(satisfied := true, flagged := true)];
      thrown := Nothing;
    }

    // Complete and erase, as on_response does after a visitor has set the value.
    method Finish(k: nat, r: Result) returns (thrown: Thrown)
      requires k < |tasks|
      modifies this`tasks, this`log
      ensures (View(), thrown) == Complete(old(View()), k, r)
    {
      thrown := SetPromise(k, r);
      if thrown != Nothing {
        return;
      }
      if tasks[k].flagged {
        tasks := tasks[..k] + tasks[k + 1..];
      }
    }

    method OnReply(xid: nat, ty: Type, items: seq<int>, more: bool) returns (thrown: Thrown)
      modifies this`tasks, this`log
      ensures (View(), thrown) == DoReply(old(View()), xid, ty, items, more)
    {
      if xid < MIN_XID {
        return Nothing;
      }
      var k := FindTask(xid);
      if k == |tasks| {
        return BadReply;
      }
      if tasks[k].kind.NoRespond? {
        thrown := SetPromise(k, NotResponded);
        return if thrown == Nothing then BadReply else thrown;
      }
      if tasks[k].kind == One(ty) {
        thrown := Finish(k, OneResult(ty, items, more));
      } else if tasks[k].kind == Many(ty) {
        tasks := tasks[k := tasks[k].(got := tasks[k].got + items)];
        if !more {
          thrown := Finish(k, Value(tasks[k].got));
        } else {
          if tasks[k].flagged {
            tasks := tasks[..k] + tasks[k + 1..];
          }
          thrown := Nothing;
        }
      } else {
        thrown := BadReply;
      }
    }

    method OnError(xid: nat) returns (thrown: Thrown)
      modifies this`tasks, this`log
      ensures (View(), thrown) == DoError(old(View()), xid)
    {
      if xid < MIN_XID {
        return Nothing;
      }
      var k := FindTask(xid);
      if k == |tasks| {
        return BadReply;
      }
      if tasks[k].kind.NoRespond? {
        thrown := SetPromise(k, NotResponded);
        return AlreadySatisfied;
      }
      thrown := Finish(k, SwitchError);
    }

    method PopTasksUntil(xid: nat) returns (thrown: Thrown)
      modifies this`tasks, this`log
      ensures (View(), thrown) == DoBarrierReply(old(View()), xid)
    {
      var k := 0;
      while k < |tasks| && !(tasks[k].xid == xid && tasks[k].kind.Barrier?)
        invariant 0 <= k <= |tasks| && tasks == old(tasks) && log == old(log)
        invariant FindBarrier(tasks, xid) == k + FindBarrier(tasks[k..], xid)
      {
        assert tasks[k..][1..] == tasks[k + 1..];
        k := k + 1;
      }
      if k == |tasks| {
        return Nothing;
      }
      for i := 0 to k
        invariant k < |tasks|
        invariant CloseFrom(View(), i, k) == CloseFrom(old(View()), 0, k)
      {
        if tasks[i].satisfied {
          return AlreadySatisfied;
        }
        log := log + [(tasks[i].uid, ClosingResult(tasks[i]))];
        tasks := tasks[i := Closed(tasks[i])];
      }
      if tasks[k].satisfied {
        return AlreadySatisfied;
      }
      log := log + [(tasks[k].uid, Value([]))];
      tasks := tasks[k + 1..];
      thrown := Nothing;
    }
  }
}
