/**
 * The exclusive request lock of the zones manager (server/zones-manager.cpp).
 * Each handler runs under mExclusiveIDMutex, so a run is a sequence of events.
 */
module QueueLocks {

  const INVALID_CONNECTION_ID := "invalid://"

  datatype Event = LockQueue(id: string) | UnlockQueue(id: string) | Disconnect(id: string) | Request(id: string)

  datatype Reply = Done | AlreadyLocked | LockedByAnother | NotLocked

  /** One event: the new lock and what the client is told. */
  function Step(lock: string, e: Event): (string, Reply) {
    match e
    case LockQueue(id) =>
      if lock == id then (lock, AlreadyLocked)
      else if lock != INVALID_CONNECTION_ID then (lock, LockedByAnother)
      else (id, Done)
    case UnlockQueue(id) =>
      if lock == INVALID_CONNECTION_ID then (lock, NotLocked)
      else if lock != id then (lock, LockedByAnother)
      else (INVALID_CONNECTION_ID, Done)
    case Disconnect(id) =>
      (if lock == id then INVALID_CONNECTION_ID else lock, Done)
    case Request(id) =>
      (lock, if lock != INVALID_CONNECTION_ID && lock != id then LockedByAnother else Done)
  }

  function LockAfter(es: seq<Event>): string {
    if es == [] then INVALID_CONNECTION_ID else Step(LockAfter(es[..|es| - 1]), es[|es| - 1]).0
  }

  /** What event n was answered. */
  function ReplyTo(es: seq<Event>, n: nat): Reply
    requires n < |es|
  {
    Step(LockAfter(es[..n]), es[n]).1
  }

  /** Event n is a lock granted to `client`, who has neither unlocked nor gone since. */
  predicate HoldsSince(es: seq<Event>, client: string, n: nat)
    requires n < |es|
  {
    && es[n] == LockQueue(client) && ReplyTo(es, n) == Done
    && forall k :: n < k < |es| ==> es[k] != UnlockQueue(client) && es[k] != Disconnect(client)
  }

  /** By what the clients have seen alone, `client` holds the queue. */
  predicate Holds(es: seq<Event>, client: string) {
    exists n :: 0 <= n < |es| && HoldsSince(es, client, n)
  }

  lemma HoldsStays(es: seq<Event>, e: Event, client: string)
    requires Holds(es, client) && e != UnlockQueue(client) && e != Disconnect(client)
    ensures Holds(es + [e], client)
  {
    var n :| 0 <= n < |es| && HoldsSince(es, client, n);
    assert (es + [e])[..n] == es[..n];
    assert HoldsSince(es + [e], client, n);
  }

  lemma HoldsBefore(es: seq<Event>, e: Event, client: string)
    requires Holds(es + [e], client)
    ensures (Holds(es, client) && e != UnlockQueue(client) && e != Disconnect(client))
         || (e == LockQueue(client) && Step(LockAfter(es), e).1 == Done)
  {
    var more := es + [e];
    var n :| 0 <= n < |more| && HoldsSince(more, client, n);
    assert more[..n] == es[..n];
    if n < |es| {
      assert forall k :: 0 <= k < |es| ==> more[k] == es[k];
      assert HoldsSince(es, client, n);
      assert more[|es|] == e;
    } else {
      assert es[..n] == es;
    }
  }

  /** In every run, mExclusiveIDLock names exactly the client that holds the queue. */
  lemma {:induction false} LockIsHolder(es: seq<Event>, client: string)
    ensures Holds(es, client) <==> LockAfter(es) == client != INVALID_CONNECTION_ID
  {
    if es != [] {
      var before, e := es[..|es| - 1], es[|es| - 1];
      assert es == before + [e];
      LockIsHolder(before, client);
      if Holds(es, client) {
        HoldsBefore(before, e, client);
      }
      if LockAfter(es) == client != INVALID_CONNECTION_ID {
        if Holds(before, client) {
          HoldsStays(before, e, client);
        } else {
          assert HoldsSince(es, client, |before|);
        }
      }
    }
  }

  /** At most one client holds the queue. */
  lemma OneHolder(es: seq<Event>, a: string, b: string)
    requires Holds(es, a) && Holds(es, b)
    ensures a == b
  {
    LockIsHolder(es, a);
    LockIsHolder(es, b);
  }

  /** A request passes exactly when no other client holds the queue. */
  lemma AdmittedExactly(es: seq<Event>, client: string)
    ensures Step(LockAfter(es), Request(client)).1 == Done <==>
              forall other :: Holds(es, other) ==> other == client
  {
    var holder := LockAfter(es);
    LockIsHolder(es, holder);
    forall other ensures Holds(es, other) <==> LockAfter(es) == other != INVALID_CONNECTION_ID {
      LockIsHolder(es, other);
    }
  }

  /** A lock is granted exactly when no one holds the queue; an unlock succeeds exactly for the holder. */
  lemma GrantedExactly(es: seq<Event>, client: string)
    requires client != INVALID_CONNECTION_ID
    ensures Step(LockAfter(es), LockQueue(client)).1 == Done <==> forall other :: !Holds(es, other)
    ensures Step(LockAfter(es), UnlockQueue(client)).1 == Done <==> Holds(es, client)
  {
    var holder := LockAfter(es);
    LockIsHolder(es, holder);
    forall other ensures Holds(es, other) <==> LockAfter(es) == other != INVALID_CONNECTION_ID {
      LockIsHolder(es, other);
    }
  }

  /** A refused call says why, by who holds the queue. */
  lemma RefusalReasons(es: seq<Event>, client: string, other: string)
    requires client != other
    ensures Holds(es, client) ==>
              && Step(LockAfter(es), LockQueue(client)).1 == AlreadyLocked
              && Step(LockAfter(es), LockQueue(other)).1 == LockedByAnother
              && Step(LockAfter(es), UnlockQueue(other)).1 == LockedByAnother
              && Step(LockAfter(es), Request(other)).1 == LockedByAnother
    ensures (forall c :: !Holds(es, c)) ==> Step(LockAfter(es), UnlockQueue(client)).1 == NotLocked
  {
    LockIsHolder(es, client);
    LockIsHolder(es, LockAfter(es));
  }

  /** Once a client holds the queue, it does until its own unlock or disconnection, and no request of others passes. */
  lemma {:induction false} HeldUntilReleased(es: seq<Event>, more: seq<Event>, client: string, k: nat)
    requires Holds(es, client) && k <= |more|
    requires forall i :: 0 <= i < k ==> more[i] != UnlockQueue(client) && more[i] != Disconnect(client)
    ensures Holds(es + more[..k], client)
    ensures k < |more| && more[k].Request? && more[k].id != client ==> Step(LockAfter(es + more[..k]), more[k]).1 == LockedByAnother
  {
    if k == 0 {
      assert es + more[..0] == es;
    } else {
      HeldUntilReleased(es, more, client, k - 1);
      HoldsStays(es + more[..k - 1], more[k - 1], client);
      assert es + more[..k] == es + more[..k - 1] + [more[k - 1]];
    }
    LockIsHolder(es + more[..k], client);
  }

  class QueueLock {
    var mExclusiveIDLock: string
    ghost var mHistory: seq<Event>

    ghost predicate Valid()
      reads this
    {
      mExclusiveIDLock == LockAfter(mHistory)
    }

    constructor ()
      ensures Valid() && mHistory == []
    {
      mExclusiveIDLock, mHistory := INVALID_CONNECTION_ID, [];
    }

    ghost method Record(e: Event)
      requires mExclusiveIDLock == Step(LockAfter(mHistory), e).0
      modifies this`mHistory
      ensures Valid() && mHistory == old(mHistory) + [e]
    {
      mHistory := mHistory + [e];
      assert mHistory[..|mHistory| - 1] == old(mHistory);
    }

    method HandleLockQueueCall(id: string) returns (r: Reply)
      requires Valid()
      modifies this
      ensures Valid() && mHistory == old(mHistory) + [LockQueue(id)]
      ensures r == Step(LockAfter(old(mHistory)), LockQueue(id)).1
    {
      r := Done;
      if mExclusiveIDLock == id {
        r := AlreadyLocked;
      } else if mExclusiveIDLock != INVALID_CONNECTION_ID {
        r := LockedByAnother;
      } else {
        mExclusiveIDLock := id;
      }
      Record(LockQueue(id));
    }

    method HandleUnlockQueueCall(id: string) returns (r: Reply)
      requires Valid()
      modifies this
      ensures Valid() && mHistory == old(mHistory) + [UnlockQueue(id)]
      ensures r == Done <==> Holds(old(mHistory), id)
    {
      LockIsHolder(mHistory, id);
      r := Done;
      if mExclusiveIDLock == INVALID_CONNECTION_ID {
        r := NotLocked;
      } else if mExclusiveIDLock != id {
        r := LockedByAnother;
      } else {
        mExclusiveIDLock := INVALID_CONNECTION_ID;
      }
      Record(UnlockQueue(id));
    }

    method DisconnectedCallback(id: string)
      requires Valid()
      modifies this
      ensures Valid() && mHistory == old(mHistory) + [Disconnect(id)]
      ensures !Holds(mHistory, id)
    {
      if mExclusiveIDLock == id {
        mExclusiveIDLock := INVALID_CONNECTION_ID;
      }
      Record(Disconnect(id));
      LockIsHolder(mHistory, id);
    }

    /** Admission of a request; running it is a later step. */
    method TryAddTask(id: string) returns (admitted: bool)
      requires Valid()
      modifies this
      ensures Valid() && mHistory == old(mHistory) + [Request(id)]
      ensures admitted <==> forall other :: Holds(old(mHistory), other) ==> other == id
    {
      AdmittedExactly(mHistory, id);
      admitted := !(mExclusiveIDLock != INVALID_CONNECTION_ID && mExclusiveIDLock != id);
      Record(Request(id));
    }
  }
}
