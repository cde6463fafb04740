/** The asynchronous semaphore of async_semaphore.cpp: a counter, a queue of pending locks
    and an event that is set while every permit is home. */
module AsyncSemaphores {

  /** What a semaphore has done so far. Lock calls are numbered in order and permits are handed out first come,
      first served, so the pending ones are the calls numbered granted, granted + 1, ..., calls - 1. */
  datatype Permits = Permits(total: nat, free: int, calls: nat, granted: nat, released: nat) {

    /** Free plus held permits are all permits, and nobody queues while a permit is free. */
    ghost predicate Valid() {
      && 0 < total && 0 <= free && released <= granted <= calls
      && free + granted == total + released
      && (granted < calls ==> free == 0)
    }

    function Lock(): Permits {
      if free > 0 then this.(free := free - 1, calls := calls + 1, granted := granted + 1)
      else this.(calls := calls + 1)
    }

    function Unlock(): Permits {
      if granted == calls then this.(free := free + 1, released := released + 1)
      else this.(granted := granted + 1, released := released + 1)
    }
  }

  function Fresh(total: nat): Permits { Permits(total, total, 0, 0, 0) }

  lemma LockKeeps(s: Permits)
    requires s.Valid()
    ensures s.Lock().Valid()
    ensures s.Lock().granted == s.granted || s.Lock().granted == s.calls + 1
  {}

  lemma UnlockKeeps(s: Permits)
    requires s.Valid() && s.released < s.granted
    ensures s.Unlock().Valid()
  {}

  /** The numbers below n. */
  ghost predicate Below(s: set<nat>, n: nat) { forall k :: k in s ==> k < n }

  ghost predicate Covers(s: set<nat>, n: nat) { forall k :: 0 <= k < n ==> k in s }

  /** As many numbers below n as n are all of them. */
  lemma {:induction false} AllReturned(s: set<nat>, n: nat)
    requires Below(s, n)
    ensures |s| <= n
    ensures |s| == n ==> Covers(s, n)
  {
    if n > 0 {
      AllReturned(s - {n - 1}, n - 1);
      assert n - 1 !in s ==> s - {n - 1} == s;
    } else {
      assert s == {};
    }
  }

  /** A task completion event. */
  class Event {
    var isSet: bool
    constructor (isSet: bool)
      ensures this.isSet == isSet
    {
      this.isSet := isSet;
    }
  }

  class AsyncSemaphore {
    var count: int
    const initialCount: int
    var queue: seq<Event>
    var emptyEvent: Event

    /** The task of every lock call, in order. */
    ghost var tickets: seq<Event>
    ghost var granted: nat
    /** The numbers of the lock calls whose holder gave the permit back. */
    ghost var returned: set<nat>
    /** Every event handed out by WaitAll, with the number of lock calls made before. */
    ghost var waits: seq<(Event, nat)>

    ghost function View(): Permits
      reads this
    {
      Permits(if initialCount < 0 then 0 else initialCount, count, |tickets|, granted, |returned|)
    }

    ghost function Repr(): set<object>
      reads this
    {
      {this, emptyEvent} + (set t | t in tickets) + (set i | 0 <= i < |waits| :: waits[i].0)
    }

    /** The queue is the rest of the lock calls, and exactly the first `granted` calls have their permit. */
    ghost predicate Grants()
      reads this, Repr()
    {
      && granted <= |tickets| && queue == tickets[granted..]
      && (forall i, j :: 0 <= i < j < |tickets| ==> tickets[i] != tickets[j])
      && (forall i :: 0 <= i < |tickets| ==> (tickets[i].isSet <==> i < granted))
    }

    /** A wait that is over saw every lock call made before it granted and returned. */
    ghost predicate Waits()
      reads this, Repr()
    {
      && Below(returned, granted)
      && emptyEvent !in tickets && (emptyEvent.isSet <==> count == initialCount)
      && (forall i :: 0 <= i < |waits| ==> waits[i].0 !in tickets && waits[i].1 <= |tickets|)
      && (forall i :: 0 <= i < |waits| && waits[i].0.isSet ==> Covers(returned, waits[i].1))
    }

    ghost predicate Valid()
      reads this, Repr()
    {
      View().Valid() && Grants() && Waits()
    }

    constructor (initial: int)
      requires initial > 0
      ensures Valid() && View() == Fresh(initial) && waits == []
      ensures fresh(Repr())
    {
      count, initialCount := initial, initial;
      queue, tickets, granted, returned, waits := [], [], 0, {}, [];
      emptyEvent := new Event(true);
    }

    method LockAsync() returns (task: Event)
      requires Valid()
      modifies this
      ensures Valid() && fresh(Repr() - old(Repr()))
      ensures View() == old(View()).Lock()
      ensures tickets == old(tickets) + [task] && waits == old(waits)
      ensures task.isSet <==> old(count) > 0
    {
      LockKeeps(View());
      if count > 0 {
        task := Take();
      } else {
        task := Wait();
      }
    }

    /** A permit is free: the first one that leaves home starts a new event. */
    method Take() returns (task: Event)
      requires Valid() && count > 0
      modifies this`count, this`emptyEvent, this`granted, this`tickets
      ensures Valid() && fresh(Repr() - old(Repr()))
      ensures View() == old(View()).Lock() && tickets == old(tickets) + [task] && task.isSet
    {
      hide Covers;
      if count == initialCount {
        emptyEvent := new Event(false);
      }
      count := count - 1;
      task := new Event(true);
      granted := granted + 1;
      tickets := tickets + [task];
      assert queue == tickets[granted..];
    }

    /** No permit is free: the call queues. */
    method Wait() returns (task: Event)
      requires Valid() && count <= 0
      modifies this`queue, this`tickets
      ensures Valid() && fresh(Repr() - old(Repr()))
      ensures View() == old(View()).Lock() && tickets == old(tickets) + [task] && !task.isSet
    {
      hide Covers;
      task := new Event(false);
      queue := queue + [task];
      tickets := tickets + [task];
      assert queue == tickets[granted..];
    }

    method WaitAllAsync() returns (task: Event)
      requires Valid()
      modifies this`waits
      ensures Valid() && task == emptyEvent
      ensures View() == old(View()) && tickets == old(tickets)
      ensures waits == old(waits) + [(task, |tickets|)] && (task.isSet ==> Covers(returned, |tickets|))
    {
      task := emptyEvent;
      waits := waits + [(task, |tickets|)];
      AllReturned(returned, granted);
    }

    /** The caller holds the permit of lock call number `call` and gives it up. */
    method Unlock(ghost call: nat)
      requires Valid() && call < granted && call !in returned
      modifies Repr()
      ensures Valid() && Repr() == old(Repr())
      ensures View() == old(View()).Unlock() && returned == old(returned) + {call}
      ensures tickets == old(tickets) && waits == old(waits)
    {
      AllReturned(returned, granted);
      AllReturned(returned + {call}, granted);
      if queue == [] {
        ComesHome(call);
      } else {
        PassOn(call);
      }
    }

    /** Nobody waits: the permit comes home, and the last one sets the event. */
    method ComesHome(ghost call: nat)
      requires Valid() && call < granted && call !in returned && queue == []
      modifies this`count, this`returned, emptyEvent
      ensures Valid() && View() == old(View()).Unlock() && returned == old(returned) + {call}
    {
      AllReturned(returned + {call}, granted);
      returned := returned + {call};
      count := count + 1;
      if count == initialCount {
        emptyEvent.isSet := true;
      }
    }

    /** The oldest waiter gets the permit. */
    method PassOn(ghost call: nat)
      requires Valid() && call < granted && call !in returned && queue != []
      modifies this`granted, this`returned, this`queue, queue[0]
      ensures Valid() && View() == old(View()).Unlock() && returned == old(returned) + {call}
    {
      AllReturned(returned + {call}, granted);
      var pending := queue[0];
      assert pending == tickets[granted];
      returned := returned + {call};
      queue := queue[1..];
      granted := granted + 1;
      pending.isSet := true;
    }
  }
}
