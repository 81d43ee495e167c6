/**
 * src/timer_manager.cpp as an object: the fields behind the mutex, and each
 * critical section as a method that performs one step of the state machine.
 */
module TimerManager {
  import opened TimerModel

  class Manager {
    var done: bool
    var events: seq<TimerData>
    var timeEvents: seq<TimeEvent>
    var freeIds: seq<nat>
    var worker: Worker
    ghost var notifies: nat
    ghost var log: seq<Entry>
    ghost var owner: seq<nat>

    ghost function View(): State
      reads this
    {
      State(done, events, timeEvents, freeIds, worker, notifies, log, owner)
    }

    ghost predicate Valid()
      reads this
    {
      Inv(View())
    }

    constructor ()
      ensures Valid() && View() == INITIAL
    {
      done, events, timeEvents, freeIds := false, [], [], [];
      worker := LoopHead;
      notifies, log, owner := 0, [], [];
      new;
      InvAfterEveryRun([]);
    }

    method Add(when: int, period: int) returns (id: nat)
      requires Valid()
      modifies this
      ensures Valid() && View() == AddStep(old(View()), when, period)
      ensures id == NewId(old(View()))
      ensures forall te :: te in old(timeEvents) ==> te.ref != id
      ensures worker.Firing? ==> worker.te.ref != id
    {
      hide Inv, Insert;
      AddKeepsInv(View(), when, period);
      AddedIdIsFree(View());
      IndicesInRange(View());
      if freeIds == [] {
        id := |events|;
        events := events + [TimerData(period, true)];
        owner := owner + [|log|];
      } else {
        id := freeIds[|freeIds| - 1];
        freeIds := freeIds[..|freeIds| - 1];
        events := events[id := TimerData(period, true)];
        owner := owner[id := |log|];
      }
      timeEvents := Insert(TimeEvent(when, id), timeEvents);
      log := log + [Added(id, when, period)];
      notifies := notifies + 1;
    }

    /** std::find_if over the multiset. */
    method Locate(id: nat) returns (i: nat)
      ensures i == FindRef(timeEvents, id)
    {
      i := 0;
      assert timeEvents[0..] == timeEvents;
      while i < |timeEvents| && timeEvents[i].ref != id
        invariant i <= |timeEvents| && i + FindRef(timeEvents[i..], id) == FindRef(timeEvents, id)
      {
        assert timeEvents[i..][1..] == timeEvents[i + 1..];
        i := i + 1;
      }
    }

    method Remove(id: nat) returns (known: bool)
      requires Valid()
      modifies this
      ensures Valid() && View() == RemoveStep(old(View()), id)
      ensures known <==> id < |old(events)|
    {
      hide Inv, FindRef;
      RemoveKeepsInv(View(), id);
      IndicesInRange(View());
      if |events| == 0 || |events| <= id {
        return false;
      }
      var it := Locate(id);
      events := events[id := events[id].(valid := false)];
      if it != |timeEvents| {
        freeIds := freeIds + [timeEvents[it].ref];
        timeEvents := Erase(timeEvents, it);
      }
      log := log + [Removed(owner[id])];
      notifies := notifies + 1;
      return true;
    }

    method Destroy()
      requires Valid()
      modifies this
      ensures Valid() && View() == DestroyStep(old(View()))
    {
      hide Inv;
      ApplyKeepsInv(View(), Action.Destroy);
      done := true;
      notifies := notifies + 1;
    }

    /** notify_all by a thread that changed the state before. */
    method NotifyAll()
      requires Valid() && notifies > 0
      modifies this
      ensures Valid() && View() == NotifyStep(old(View()))
    {
      hide Inv;
      ApplyKeepsInv(View(), Notify);
      notifies := notifies - 1;
      worker := Awake(worker);
    }

    /** One turn of the worker loop up to the next wait, or up to calling the handler of te. */
    method WorkerTurn(now: int)
      requires Valid() && worker.LoopHead?
      modifies this
      ensures Valid() && View() == WorkerTurnStep(old(View()), now)
    {
      hide Inv;
      ApplyKeepsInv(View(), Action.WorkerTurn(now));
      IndicesInRange(View());
      if done {
        worker := Returned;
      } else if timeEvents == [] {
        worker := Waiting;
      } else {
        var te := timeEvents[0];
        if now >= te.next {
          timeEvents := timeEvents[1..];
          log := log + [Fired(owner[te.ref], te.next, now)];
          worker := Firing(te);
        } else {
          worker := WaitingUntil(te.next);
        }
      }
    }

    /** After the handler returned and the mutex is held again. */
    method FinishFiring()
      requires Valid() && worker.Firing?
      modifies this
      ensures Valid() && View() == FinishFiringStep(old(View())) && worker.LoopHead?
    {
      hide Inv, Insert;
      ApplyKeepsInv(View(), Action.FinishFiring);
      IndicesInRange(View());
      var te := worker.te;
      if events[te.ref].valid && events[te.ref].period > 0 {
        te := te.(next := te.next + events[te.ref].period);
        timeEvents := Insert(te, timeEvents);
      } else {
        events := events[te.ref := events[te.ref].(valid := false)];
        freeIds := freeIds + [te.ref];
      }
      worker := LoopHead;
    }
  }
}
