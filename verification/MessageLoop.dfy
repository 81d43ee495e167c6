/**
 * src/message_loop/message_loop.cpp and message_pump_default.cpp as objects.
 * Each method is one step of the state machine, or the thread-private loop
 * between two steps; posting threads interleave between the methods.
 */
module MessageLoop {
  import opened Machine
  import opened Options
  import opened MessageLoopModel

  class PumpDefault {
    var keepRunning: bool
    var haveWork: bool
    var delayedWorkTime: int
    ghost var posters: nat
    ghost var notifiers: nat

    constructor ()
      ensures keepRunning && !haveWork && delayedWorkTime == 0 && posters == 0 && notifiers == 0
    {
      keepRunning, haveWork, delayedWorkTime := true, false, 0;
      posters, notifiers := 0, 0;
    }

    /** The part of scheduleWork under haveWorkLock_; the notification follows. */
    method RaiseFlag()
      requires posters > 0
      modifies this
      ensures haveWork && posters == old(posters) - 1 && notifiers == old(notifiers) + 1
      ensures keepRunning == old(keepRunning) && delayedWorkTime == old(delayedWorkTime)
    {
      haveWork := true;
      posters, notifiers := posters - 1, notifiers + 1;
    }

    method ScheduleDelayedWork(time: int)
      modifies `delayedWorkTime
      ensures delayedWorkTime == time
    {
      delayedWorkTime := time;
    }
  }

  class Loop {
    const pump: PumpDefault
    var incomingQueue: seq<Task>
    var workQueue: seq<Task>
    var delayedWorkQueue: seq<Entry>
    var deferredQueue: seq<Task>
    var nextSequenceNum: int
    var recentTime: int
    var pc: Pc
    ghost var clock: int
    ghost var posted: seq<Task>
    var moved: seq<Task>  // bookkeeping: gives each delayed entry its order
    ghost var ran: seq<Task>
    ghost var taken: seq<Taken>

    ghost function View(): State
      reads this, pump
    {
      State(Queues(incomingQueue, workQueue, delayedWorkQueue, deferredQueue, nextSequenceNum,
                   posted, moved, ran, taken),
            Pump(pc, pump.keepRunning, pump.haveWork, pump.delayedWorkTime, recentTime, clock,
                 pump.posters, pump.notifiers))
    }

    ghost predicate Valid()
      reads this, pump
    {
      Inv(View())
    }

    constructor (ghost now: nat)
      ensures fresh(pump) && Valid() && View() == Initial(now)
    {
      pump := new PumpDefault();
      incomingQueue, workQueue, delayedWorkQueue, deferredQueue := [], [], [], [];
      nextSequenceNum, recentTime, pc, clock := 0, 0, DoWork, now;
      posted, moved, ran, taken := [], [], [], [];
      new;
      InvAfterEveryRun(now, []);
    }

    /** The part under incomingQueueLock_; id names the task. True if the poster has to call scheduleWork. */
    method AddToIncomingQueue(id: nat, now: int, delay: int, nestable: bool) returns (empty: bool)
      requires Valid() && id == |posted| && now == clock
      modifies this, pump
      ensures Valid() && View() == PostStep(old(View()), delay, nestable)
      ensures empty <==> old(incomingQueue) == []
    {
      hide Inv;
      PostKept(View(), delay, nestable);
      empty := incomingQueue == [];
      var t := Task(id, if delay > 0 then now + delay else 0, nestable);
      incomingQueue := incomingQueue + [t];
      posted := posted + [t];
      if empty {
        pump.posters := pump.posters + 1;
      }
    }

    method ScheduleWork()
      requires Valid() && pump.posters > 0 && !(pc.BeforeWait? && pc.locked)
      modifies this, pump
      ensures Valid() && View() == old(View()).(p := SetFlagStep(old(View()).p))
    {
      hide Inv;
      ApplyKeepsInv(View(), SetFlag);
      pump.RaiseFlag();
    }

    method ReloadWorkQueue()
      modifies this
      ensures old(workQueue) != [] ==> workQueue == old(workQueue) && incomingQueue == old(incomingQueue)
      ensures old(workQueue) == [] ==> workQueue == old(incomingQueue) && incomingQueue == []
      ensures delayedWorkQueue == old(delayedWorkQueue) && deferredQueue == old(deferredQueue)
      ensures nextSequenceNum == old(nextSequenceNum) && recentTime == old(recentTime) && pc == old(pc)
      ensures clock == old(clock) && posted == old(posted) && moved == old(moved)
      ensures ran == old(ran) && taken == old(taken)
    {
      if workQueue != [] {
        return;
      }
      if incomingQueue == [] {
        return;
      }
      incomingQueue, workQueue := workQueue, incomingQueue;
    }

    /** One turn of the inner loop of doWork: delay, defer or run the oldest task. */
    method WorkOneItem()
      requires Valid() && pc.DoWorkItem? && workQueue != []
      modifies this, pump
      ensures Valid() && View() == WorkItemStep(old(View()))
      ensures |workQueue| == |old(workQueue)| - 1
    {
      hide Inv;
      WorkItemKept(View());
      var t := workQueue[0];
      var next := if |workQueue| == 1 then DoWork else DoWorkItem;
      workQueue := workQueue[1..];
      if t.runTime != 0 {
        var reschedule := delayedWorkQueue == [];
        delayedWorkQueue := delayedWorkQueue + [Entry(t, nextSequenceNum, |moved|)];
        moved := moved + [t];
        nextSequenceNum := Wrap32(nextSequenceNum + 1);
        if reschedule {
          pump.ScheduleDelayedWork(t.runTime);
        }
        pc := next;
      } else if t.nestable {
        ran := ran + [t];
        pc := Running(t, WorkPhase);
      } else {
        deferredQueue := deferredQueue + [t];
        pc := next;
      }
    }

    /** One outer turn of doWork: reload, then the inner loop until it empties the queue or finds a task to run. */
    method DoWorkTurn() returns (task: Option<Task>)
      requires Valid() && pc.DoWork?
      modifies this, pump
      ensures Valid() && View() == Drained(ReloadStep(old(View())))
      ensures task == if pc.Running? then Some(pc.task) else None
    {
      hide Inv, WorkItemStep;
      ReloadKept(View());
      ReloadWorkQueue();
      if workQueue == [] {
        pc := if pump.keepRunning then DoDelayed(false) else Exited;
        pump.keepRunning := true;
        return None;
      }
      pc := DoWorkItem;
      ghost var start := View();
      while pc.DoWorkItem?
        invariant Valid() && Drained(View()) == Drained(start)
        decreases if pc.DoWorkItem? then |workQueue| else -1
      {
        DrainStarts(View());
        WorkOneItem();
      }
      task := if pc.Running? then Some(pc.task) else None;
    }

    /** std::priority_queue::top, found by comparing with operator<. */
    method Top() returns (i: nat)
      requires Valid() && delayedWorkQueue != [] && ShortSpan(delayedWorkQueue)
      ensures IsTop(delayedWorkQueue, i)
      ensures forall j :: 0 <= j < |delayedWorkQueue| && j != i ==> Before(delayedWorkQueue[i], delayedWorkQueue[j])
    {
      var q := delayedWorkQueue;
      WellOrdered(View());
      hide Inv, Less, Wrap32;
      i := 0;
      for n := 1 to |q|
        invariant i < n
        invariant forall j :: 0 <= j < n && j != i ==> Before(q[i], q[j])
      {
        LessIsBefore(q[i], q[n]);
        if Less(q[i], q[n]) {
          i := n;
        }
      }
      forall j | 0 <= j < |q| ensures !Less(q[i], q[j]) {
        LessIsBefore(q[i], q[j]);
      }
    }

    /** doDelayedWork, up to running the task it takes. */
    method DoDelayedWork(now: int) returns (task: Option<Task>)
      requires Valid() && pc.DoDelayed? && now == clock && ShortSpan(delayedWorkQueue)
      modifies this, pump
      ensures Valid()
      ensures old(delayedWorkQueue) == [] ==> View() == DelayedStep(old(View()), 0)
      ensures old(delayedWorkQueue) != [] ==>
                exists i: nat :: IsTop(old(delayedWorkQueue), i) && View() == DelayedStep(old(View()), i)
      ensures task == if pc.Running? then Some(pc.task) else None
    {
      hide Inv, TakeDelayed;
      var result := if !pump.keepRunning then Exited else if pc.didWork then DoWork else DoIdle;
      if delayedWorkQueue == [] {
        DelayedKept(View(), 0);
        recentTime := 0;
        pump.delayedWorkTime := 0;
        pump.keepRunning := true;
        pc := result;
        return None;
      }
      var i := Top();
      DelayedKept(View(), i);
      var nextRunTime := delayedWorkQueue[i].task.runTime;
      ghost var was := View();
      if nextRunTime > recentTime {
        recentTime := now;
        if nextRunTime > recentTime {
          pump.delayedWorkTime := nextRunTime;
          pump.keepRunning := true;
          pc := result;
          assert View() == DelayedStep(was, i);
          return None;
        }
      }
      task := PopTop(i, result);
      assert View() == DelayedStep(was, i);
    }

    method PopTop(i: nat, result: Pc) returns (task: Option<Task>)
      requires pc.DoDelayed? && i < |delayedWorkQueue|
      requires result == if !pump.keepRunning then Exited else if pc.didWork then DoWork else DoIdle
      modifies this, pump
      ensures View() == TakeDelayed(old(View()), i)
      ensures task == if pc.Running? then Some(pc.task) else None
    {
      hide MinTime, Inv, Erase;
      var e := delayedWorkQueue[i];
      delayedWorkQueue := Erase(delayedWorkQueue, i);
      taken := taken + [Taken(e, clock)];
      if delayedWorkQueue != [] {
        pump.delayedWorkTime := MinTime(delayedWorkQueue);
      }
      if e.task.nestable {
        ran := ran + [e.task];
        pc := Running(e.task, DelayedPhase);
        return Some(e.task);
      }
      deferredQueue := deferredQueue + [e.task];
      pump.keepRunning := true;
      pc := result;
      return None;
    }

    method DoIdleWork() returns (task: Option<Task>)
      requires Valid() && pc.DoIdle?
      modifies this, pump
      ensures Valid() && View() == IdleStep(old(View()))
      ensures task == if pc.Running? then Some(pc.task) else None
    {
      hide Inv;
      IdleKept(View());
      if deferredQueue == [] {
        pc := if pump.keepRunning then Decide else Exited;
        pump.keepRunning := true;
        return None;
      }
      var t := deferredQueue[0];
      deferredQueue := deferredQueue[1..];
      ran := ran + [t];
      pc := Running(t, IdlePhase);
      return Some(t);
    }

    /** The pump's choice between the untimed wait, a timed wait and no wait. */
    method ChooseWait(now: int)
      requires Valid() && pc.Decide? && now == clock
      modifies this, pump
      ensures Valid() && View() == old(View()).(p := ChooseWaitStep(old(View()).p))
    {
      hide Inv;
      ApplyKeepsInv(View(), Action.ChooseWait);
      if pump.delayedWorkTime == 0 {
        pc := IdleCheck;
      } else {
        var delay := Quo(pump.delayedWorkTime - now, MILLISECOND);
        if delay > 0 {
          pc := BeforeWait(now, false);
        } else {
          pump.delayedWorkTime := 0;
          pc := DoWork;
        }
      }
    }

    /** event_.wait_for(lock, delay), up to falling asleep, at a clock reading of its own. */
    method BeginWait(delay: int, now: int)
      requires Valid() && pc.BeforeWait? && now == clock && delay == WaitMs(pump.delayedWorkTime, pc.readAt)
      modifies this
      ensures Valid() && View() == old(View()).(p := BeginWaitStep(old(View()).p))
      ensures pc.TimedAsleep? && now < pc.until <= MinTime(delayedWorkQueue) + (now - old(pc.readAt))
    {
      hide Inv, MinTime, WaitMs;
      WaitIsBounded(View());
      ApplyKeepsInv(View(), Action.BeginWait);
      pc := TimedAsleep(now + delay * MILLISECOND, pc.readAt, now);
    }

    /** After a wake-up that is no time-out, with the lock held again. */
    method CheckTimed(now: int)
      requires Valid() && pc.TimedCheck? && now == clock
      modifies this, pump
      ensures Valid() && View() == old(View()).(p := CheckTimedStep(old(View()).p))
    {
      hide Inv;
      ApplyKeepsInv(View(), Action.CheckTimed);
      if !pump.haveWork {
        var delay := Quo(pump.delayedWorkTime - now, MILLISECOND);
        if delay > 0 {
          pc := BeforeWait(now, true);
          return;
        }
      }
      pump.haveWork := false;
      pc := DoWork;
    }
  }

  lemma WaitIsBounded(s: State)
    requires Inv(s) && s.p.pc.BeforeWait?
    ensures WaitMs(s.p.delayedWorkTime, s.p.pc.readAt) > 0
    ensures s.p.clock + WaitMs(s.p.delayedWorkTime, s.p.pc.readAt) * MILLISECOND
         <= MinTime(s.q.delayed) + (s.p.clock - s.p.pc.readAt)
  {
    WaitEndsAt(s.p.delayedWorkTime, s.p.pc.readAt, s.p.clock);
  }

  lemma DrainStarts(s: State)
    requires Inv(s)
    ensures s.p.pc.DoWorkItem? ==> s.q.work != []
  {}

  lemma WellOrdered(s: State)
    requires Inv(s)
    ensures forall i :: 0 <= i < |s.q.delayed| ==> s.q.delayed[i].sequence == Wrap32(s.q.delayed[i].order)
    ensures forall i, j :: 0 <= i < j < |s.q.delayed| ==> s.q.delayed[i].order < s.q.delayed[j].order
  {
    forall i | 0 <= i < |s.q.delayed| ensures s.q.delayed[i].sequence == Wrap32(s.q.delayed[i].order) {
      assert EntryOk(s.q, s.q.delayed[i]);
    }
  }

  /** WorkItem steps until the inner loop is left. */
  function Drained(s: State): State
    decreases |s.q.work|
  {
    if s.p.pc.DoWorkItem? && s.q.work != [] then Drained(WorkItemStep(s)) else s
  }
}
