/**
 * src/message_loop/: the task queues, the default pump and the threads that
 * post, as a state machine. Every step is a critical section, or code that
 * touches only what the loop's own thread uses.
 */
module MessageLoopModel {
  import opened Machine
  import opened Sequences

  /** runTime 0 is the default TimePoint: an immediate task. */
  datatype Task = Task(id: nat, runTime: int, nestable: bool)

  /** A task in the delayed queue; order counts such tasks without wrapping. */
  datatype Entry = Entry(task: Task, sequence: int, order: nat)

  datatype Taken = Taken(entry: Entry, at: int)

  datatype Phase = WorkPhase | DelayedPhase | IdlePhase

  datatype Pc =
    | DoWork                          // about to reload the work queue
    | DoWorkItem                      // in the inner loop, work queue not empty
    | Running(task: Task, phase: Phase)
    | DoDelayed(didWork: bool)
    | DoIdle
    | Decide                          // about to choose a wait
    | IdleCheck                       // untimed wait, testing have_work_
    | IdleAsleep
    | BeforeWait(readAt: int, locked: bool) // delay computed from a clock reading, wait_for not begun
    | TimedAsleep(until: int, readAt: int, began: int)
    | TimedCheck                      // woken from the timed wait
    | Exited

  /** The four task queues, the sequence counter, and the history of what passed through them. */
  datatype Queues = Queues(
    incoming: seq<Task>,
    work: seq<Task>,
    delayed: seq<Entry>,
    deferred: seq<Task>,
    nextSequence: int,
    posted: seq<Task>, // every task ever posted, in posting order
    moved: seq<Task>,  // every task ever put into the delayed queue, in that order
    ran: seq<Task>,    // every task ever taken to run, in that order
    taken: seq<Taken>) // every entry ever taken from the delayed queue

  datatype Pump = Pump(
    pc: Pc,
    keepRunning: bool,
    haveWork: bool,
    delayedWorkTime: int,
    recentTime: int,
    clock: int,
    posters: nat,      // threads that filled an empty queue and have yet to call scheduleWork
    notifiers: nat)    // threads that set have_work_ and have yet to notify

  datatype State = State(q: Queues, p: Pump)

  datatype Action =
    | Post(delay: int, nestable: bool)
    | SetFlag
    | NotifyOne
    | Spurious
    | Tick(ticks: nat)
    | Quit
    | FinishTask
    | Reload
    | WorkItem
    | Delayed(i: nat)   // i: the top of the priority queue
    | Idle
    | ChooseWait
    | BeginWait
    | CheckIdle
    | CheckTimed
    | TimeOut

  /** Clock ticks in a millisecond. */
  const MILLISECOND: int := 1000000

  function Initial(clock: nat): State {
    State(Queues([], [], [], [], 0, [], [], [], []), Pump(DoWork, true, false, 0, 0, clock, 0, 0))
  }

  // ----- the priority queue -----

  /** PendingTask::operator<, inverted so that the smaller time is the greater task. */
  predicate Less(a: Entry, b: Entry) {
    if a.task.runTime < b.task.runTime then false
    else if a.task.runTime > b.task.runTime then true
    else Wrap32(a.sequence - b.sequence) > 0
  }

  /** Position i holds a greatest element. */
  ghost predicate IsTop(q: seq<Entry>, i: nat) {
    i < |q| && forall j :: 0 <= j < |q| ==> !Less(q[i], q[j])
  }

  function MinTime(q: seq<Entry>): int
    requires q != []
  {
    if |q| == 1 then q[0].task.runTime
    else
      var m := MinTime(q[1..]);
      if q[0].task.runTime < m then q[0].task.runTime else m
  }

  /** The earliest run time, or the default TimePoint when there is none. */
  function Earliest(q: seq<Entry>): int {
    if q == [] then 0 else MinTime(q)
  }

  function Erase<T>(q: seq<T>, i: nat): seq<T>
    requires i < |q|
  {
    q[..i] + q[i + 1..]
  }

  // ----- moving tasks between queues -----

  function PushIncoming(q: Queues, runTime: int, nestable: bool): Queues {
    var t := Task(|q.posted|, runTime, nestable);
    q.(incoming := q.incoming + [t], posted := q.posted + [t])
  }

  function SwapIncoming(q: Queues): Queues
    requires q.work == []
  {
    q.(work := q.incoming, incoming := [])
  }

  /** addToDelayedWorkQueue for the oldest task of the work queue. */
  function DelayFirst(q: Queues): Queues
    requires q.work != []
  {
    q.(work := q.work[1..], moved := q.moved + [q.work[0]],
       delayed := q.delayed + [Entry(q.work[0], q.nextSequence, |q.moved|)],
       nextSequence := Wrap32(q.nextSequence + 1))
  }

  function DeferFirst(q: Queues): Queues
    requires q.work != []
  {
    q.(work := q.work[1..], deferred := q.deferred + [q.work[0]])
  }

  function RunFirst(q: Queues): Queues
    requires q.work != []
  {
    q.(work := q.work[1..], ran := q.ran + [q.work[0]])
  }

  function PopDelayed(q: Queues, i: nat, at: int): Queues
    requires i < |q.delayed|
  {
    var t, q' := q.delayed[i].task, q.(delayed := Erase(q.delayed, i), taken := q.taken + [Taken(q.delayed[i], at)]);
    if t.nestable then q'.(ran := q.ran + [t]) else q'.(deferred := q.deferred + [t])
  }

  function RunDeferred(q: Queues): Queues
    requires q.deferred != []
  {
    q.(deferred := q.deferred[1..], ran := q.ran + [q.deferred[0]])
  }

  // ----- the steps -----

  function RunTime(clock: int, delay: int): int {
    if delay > 0 then clock + delay else 0
  }

  function PostStep(s: State, delay: int, nestable: bool): State {
    State(PushIncoming(s.q, RunTime(s.p.clock, delay), nestable),
          if s.q.incoming == [] then s.p.(posters := s.p.posters + 1) else s.p)
  }

  /** scheduleWork waits while the pump itself holds haveWorkLock_. */
  function SetFlagStep(p: Pump): Pump {
    if p.posters == 0 || (p.pc.BeforeWait? && p.pc.locked) then p
    else p.(posters := p.posters - 1, haveWork := true, notifiers := p.notifiers + 1)
  }

  function Woken(pc: Pc): Pc {
    if pc.IdleAsleep? then IdleCheck else if pc.TimedAsleep? then TimedCheck else pc
  }

  function NotifyOneStep(p: Pump): Pump {
    if p.notifiers == 0 then p else p.(notifiers := p.notifiers - 1, pc := Woken(p.pc))
  }

  /** Where the pump goes when a delegate call has returned: out of the loop after quit. */
  function Return(p: Pump, pc: Pc): Pump {
    if p.keepRunning then p.(pc := pc) else p.(pc := Exited, keepRunning := true)
  }

  function FinishTaskStep(p: Pump): Pump {
    if !p.pc.Running? then p
    else Return(p, if p.pc.phase.WorkPhase? then DoDelayed(true) else DoWork)
  }

  function ReloadStep(s: State): State {
    if !s.p.pc.DoWork? then s
    else if s.q.work != [] then s.(p := s.p.(pc := DoWorkItem))
    else if s.q.incoming != [] then State(SwapIncoming(s.q), s.p.(pc := DoWorkItem))
    else s.(p := Return(s.p, DoDelayed(false)))
  }

  function WorkItemStep(s: State): State {
    if !s.p.pc.DoWorkItem? || s.q.work == [] then s
    else
      var t := s.q.work[0];
      var next := if |s.q.work| == 1 then DoWork else DoWorkItem;
      if t.runTime != 0 then
        State(DelayFirst(s.q),
              if s.q.delayed == [] then s.p.(pc := next, delayedWorkTime := t.runTime) else s.p.(pc := next))
      else if t.nestable then State(RunFirst(s.q), s.p.(pc := Running(t, WorkPhase)))
      else State(DeferFirst(s.q), s.p.(pc := next))
  }

  /** doDelayedWork came back without having run a task. */
  function NothingDelayed(p: Pump): Pump
    requires p.pc.DoDelayed?
  {
    Return(p, if p.pc.didWork then DoWork else DoIdle)
  }

  function TakeDelayed(s: State, i: nat): State
    requires s.p.pc.DoDelayed? && i < |s.q.delayed|
  {
    var t, rest := s.q.delayed[i].task, Erase(s.q.delayed, i);
    var p' := if rest == [] then s.p else s.p.(delayedWorkTime := MinTime(rest));
    State(PopDelayed(s.q, i, s.p.clock),
          if t.nestable then p'.(pc := Running(t, DelayedPhase)) else NothingDelayed(p'))
  }

  /** The clock is read again only if the top task is later than the last reading. */
  function RecentTime(s: State, next: int): int {
    if next > s.p.recentTime then s.p.clock else s.p.recentTime
  }

  /** doDelayedWork with entry i on top of the queue. */
  function TryTop(s: State, i: nat): State
    requires s.p.pc.DoDelayed? && i < |s.q.delayed|
  {
    var next := s.q.delayed[i].task.runTime;
    var recent := RecentTime(s, next);
    if next > recent then s.(p := NothingDelayed(s.p.(recentTime := recent, delayedWorkTime := next)))
    else TakeDelayed(s.(p := s.p.(recentTime := recent)), i)
  }

  ghost function DelayedStep(s: State, i: nat): State {
    if !s.p.pc.DoDelayed? then s
    else if s.q.delayed == [] then s.(p := NothingDelayed(s.p.(recentTime := 0, delayedWorkTime := 0)))
    else if IsTop(s.q.delayed, i) then TryTop(s, i)
    else s
  }

  function IdleStep(s: State): State {
    if !s.p.pc.DoIdle? then s
    else if s.q.deferred == [] then s.(p := Return(s.p, Decide))
    else State(RunDeferred(s.q), s.p.(pc := Running(s.q.deferred[0], IdlePhase)))
  }

  /** The delay from a clock reading to the deadline, as duration_cast truncates it to milliseconds. */
  function WaitMs(deadline: int, readAt: int): int {
    Quo(deadline - readAt, MILLISECOND)
  }

  /** Without a deadline the untimed wait; with one that is ahead, the timed wait is prepared. */
  function ChooseWaitStep(p: Pump): Pump {
    if !p.pc.Decide? then p
    else if p.delayedWorkTime == 0 then p.(pc := IdleCheck)
    else if WaitMs(p.delayedWorkTime, p.clock) > 0 then p.(pc := BeforeWait(p.clock, false))
    else p.(delayedWorkTime := 0, pc := DoWork)
  }

  /** wait_for, under haveWorkLock_, counts the delay from a clock reading of its own. */
  function BeginWaitStep(p: Pump): Pump {
    if !p.pc.BeforeWait? then p
    else p.(pc := TimedAsleep(p.clock + WaitMs(p.delayedWorkTime, p.pc.readAt) * MILLISECOND, p.pc.readAt, p.clock))
  }

  function CheckIdleStep(p: Pump): Pump {
    if !p.pc.IdleCheck? then p
    else if p.haveWork then p.(haveWork := false, pc := DoWork)
    else p.(pc := IdleAsleep)
  }

  function CheckTimedStep(p: Pump): Pump {
    if !p.pc.TimedCheck? then p
    else if !p.haveWork && WaitMs(p.delayedWorkTime, p.clock) > 0 then p.(pc := BeforeWait(p.clock, true))
    else p.(haveWork := false, pc := DoWork)
  }

  function TimeOutStep(p: Pump): Pump {
    if p.pc.TimedAsleep? && p.pc.until <= p.clock then p.(haveWork := false, pc := DoWork) else p
  }

  ghost function Apply(s: State, a: Action): State {
    match a
    case Post(delay, nestable) => PostStep(s, delay, nestable)
    case SetFlag => s.(p := SetFlagStep(s.p))
    case NotifyOne => s.(p := NotifyOneStep(s.p))
    case Spurious => s.(p := s.p.(pc := Woken(s.p.pc)))
    case Tick(ticks) => s.(p := s.p.(clock := s.p.clock + ticks))
    case Quit => if s.p.pc.Running? then s.(p := s.p.(keepRunning := false)) else s
    case FinishTask => s.(p := FinishTaskStep(s.p))
    case Reload => ReloadStep(s)
    case WorkItem => WorkItemStep(s)
    case Delayed(i) => DelayedStep(s, i)
    case Idle => IdleStep(s)
    case ChooseWait => s.(p := ChooseWaitStep(s.p))
    case BeginWait => s.(p := BeginWaitStep(s.p))
    case CheckIdle => s.(p := CheckIdleStep(s.p))
    case CheckTimed => s.(p := CheckTimedStep(s.p))
    case TimeOut => s.(p := TimeOutStep(s.p))
  }

  /** The state after a run of actions. */
  ghost function After(clock: nat, run: seq<Action>): State {
    if run == [] then Initial(clock) else Apply(After(clock, run[..|run| - 1]), run[|run| - 1])
  }

  // ----- what the queues keep -----

  function TasksOf(q: seq<Entry>): (r: seq<Task>)
    ensures |r| == |q|
  {
    seq(|q|, i requires 0 <= i < |q| => q[i].task)
  }

  datatype Kind = Immediate | NonNestable | Later

  function KindOf(t: Task): Kind {
    if t.runTime != 0 then Later else if t.nestable then Immediate else NonNestable
  }

  /** The tasks of one kind, in order. */
  function Only(k: Kind, s: seq<Task>): seq<Task> {
    if s == [] then []
    else if KindOf(s[0]) == k then [s[0]] + Only(k, s[1..])
    else Only(k, s[1..])
  }

  lemma {:induction false} OnlyAppend(k: Kind, a: seq<Task>, b: seq<Task>)
    ensures Only(k, a + b) == Only(k, a) + Only(k, b)
  {
    if a == [] {
      assert a + b == b;
    } else {
      OnlyAppend(k, a[1..], b);
      assert (a + b)[0] == a[0] && (a + b)[1..] == a[1..] + b;
      assert [a[0]] + (Only(k, a[1..]) + Only(k, b)) == [a[0]] + Only(k, a[1..]) + Only(k, b);
    }
  }

  /** Every place a posted task can be, with multiplicity. */
  function Places(q: Queues): multiset<Task> {
    multiset(q.incoming) + multiset(q.work) + multiset(TasksOf(q.delayed)) + multiset(q.deferred) + multiset(q.ran)
  }

  ghost predicate Conserved(q: Queues) {
    && Places(q) == multiset(q.posted)
    && forall i :: 0 <= i < |q.posted| ==> q.posted[i].id == i
  }

  /** The tasks of one kind that left the work queue, then those still in it and behind it, are those posted. */
  ghost predicate Passing(k: Kind, left: seq<Task>, work: seq<Task>, incoming: seq<Task>, posted: seq<Task>) {
    left + Only(k, work) + Only(k, incoming) == Only(k, posted)
  }

  /** Each kind of task passes through its queues in posting order. */
  ghost predicate InOrder(q: Queues) {
    && Passing(Immediate, Only(Immediate, q.ran), q.work, q.incoming, q.posted)
    && Passing(NonNestable, Only(NonNestable, q.ran) + Only(NonNestable, q.deferred), q.work, q.incoming, q.posted)
    && Passing(Later, q.moved, q.work, q.incoming, q.posted)
  }

  /** Delayed entries carry the wrapped image of their place in posting order. */
  ghost predicate EntryOk(q: Queues, e: Entry) {
    && e.order < |q.moved| && q.moved[e.order] == e.task
    && e.sequence == Wrap32(e.order) && e.task.runTime > 0
  }

  ghost predicate EntriesOk(q: Queues) {
    && q.nextSequence == Wrap32(|q.moved|)
    && (forall e :: e in q.delayed ==> EntryOk(q, e))
    && (forall i, j :: 0 <= i < j < |q.delayed| ==> q.delayed[i].order < q.delayed[j].order)
    && (forall t :: t in q.incoming || t in q.work ==> t.runTime >= 0)
    && (forall t :: t in q.deferred ==> !t.nestable)
    && (forall k :: k in q.taken ==> k.entry.task.runTime <= k.at)
  }

  ghost predicate QueuesOk(q: Queues) {
    Conserved(q) && InOrder(q) && EntriesOk(q)
  }

  // ----- container lemmas -----

  lemma PopFront(s: seq<Task>)
    requires s != []
    ensures s == [s[0]] + s[1..]
    ensures multiset(s) == multiset{s[0]} + multiset(s[1..])
  {}

  lemma PopOnly(k: Kind, s: seq<Task>)
    requires s != []
    ensures Only(k, s) == if KindOf(s[0]) == k then [s[0]] + Only(k, s[1..]) else Only(k, s[1..])
  {}

  lemma OnlySnoc(k: Kind, s: seq<Task>, t: Task)
    ensures Only(k, s + [t]) == if KindOf(t) == k then Only(k, s) + [t] else Only(k, s)
  {
    OnlyAppend(k, s, [t]);
    assert [t][1..] == [];
  }

  lemma EraseTasks(q: seq<Entry>, i: nat)
    requires i < |q|
    ensures multiset(TasksOf(q)) == multiset(TasksOf(Erase(q, i))) + multiset{q[i].task}
  {
    assert q == q[..i] + [q[i]] + q[i + 1..];
    assert TasksOf(q) == TasksOf(q[..i]) + [q[i].task] + TasksOf(q[i + 1..]);
    assert TasksOf(Erase(q, i)) == TasksOf(q[..i]) + TasksOf(q[i + 1..]);
  }

  lemma PushTask(q: seq<Entry>, e: Entry)
    ensures multiset(TasksOf(q + [e])) == multiset(TasksOf(q)) + multiset{e.task}
  {
    assert TasksOf(q + [e]) == TasksOf(q) + [e.task];
  }

  lemma {:induction false} MinTimeIsLeast(q: seq<Entry>)
    requires q != []
    ensures forall e :: e in q ==> MinTime(q) <= e.task.runTime
    ensures exists e :: e in q && e.task.runTime == MinTime(q)
  {
    if |q| > 1 {
      MinTimeIsLeast(q[1..]);
      assert q == [q[0]] + q[1..];
    } else {
      assert q[0] in q;
    }
  }

  lemma TopHasMinTime(q: seq<Entry>, i: nat)
    requires IsTop(q, i)
    ensures i < |q| && q[i].task.runTime == MinTime(q)
  {
    MinTimeIsLeast(q);
    var e :| e in q && e.task.runTime == MinTime(q);
    var j :| 0 <= j < |q| && q[j] == e;
    assert !Less(q[i], q[j]);
  }

  // ----- every move between queues keeps all of it -----

  lemma PushIncomingConserved(q: Queues, runTime: int, nestable: bool)
    requires Conserved(q)
    ensures Conserved(PushIncoming(q, runTime, nestable))
  {
    var q' := PushIncoming(q, runTime, nestable);
    assert Places(q') == Places(q) + multiset{q'.posted[|q.posted|]};
  }

  lemma PushIncomingKept(q: Queues, runTime: int, nestable: bool)
    requires QueuesOk(q) && runTime >= 0
    ensures QueuesOk(PushIncoming(q, runTime, nestable))
  {
    hide Conserved, InOrder;
    PushIncomingConserved(q, runTime, nestable);
    PushIncomingInOrder(q, Task(|q.posted|, runTime, nestable));
  }

  lemma PushIncomingInOrder(q: Queues, t: Task)
    requires InOrder(q)
    ensures InOrder(q.(incoming := q.incoming + [t], posted := q.posted + [t]))
  {
    PassingPush(Immediate, Only(Immediate, q.ran), q, t);
    PassingPush(NonNestable, Only(NonNestable, q.ran) + Only(NonNestable, q.deferred), q, t);
    PassingPush(Later, q.moved, q, t);
  }

  lemma PassingPush(k: Kind, left: seq<Task>, q: Queues, t: Task)
    requires Passing(k, left, q.work, q.incoming, q.posted)
    ensures Passing(k, left, q.work, q.incoming + [t], q.posted + [t])
  {
    hide Only;
    OnlySnoc(k, q.posted, t);
    OnlySnoc(k, q.incoming, t);
  }

  /** The oldest task of the work queue joins those of its kind that left before. */
  lemma PassingPop(k: Kind, left: seq<Task>, q: Queues)
    requires q.work != [] && Passing(k, left, q.work, q.incoming, q.posted)
    ensures Passing(k, if KindOf(q.work[0]) == k then left + [q.work[0]] else left, q.work[1..], q.incoming, q.posted)
  {
    PopOnly(k, q.work);
    hide Only;
    Regroup(left, [q.work[0]], Only(k, q.work[1..]));
  }

  /** All three passages at once; what left is given by the new tails of ran, deferred and moved. */
  lemma InOrderPop(q: Queues, q': Queues)
    requires InOrder(q) && q.work != [] && q'.work == q.work[1..]
    requires q'.incoming == q.incoming && q'.posted == q.posted
    requires var t := q.work[0];
             match KindOf(t)
             case Immediate => q'.ran == q.ran + [t] && q'.deferred == q.deferred && q'.moved == q.moved
             case NonNestable => q'.ran == q.ran && q'.deferred == q.deferred + [t] && q'.moved == q.moved
             case Later => q'.ran == q.ran && q'.deferred == q.deferred && q'.moved == q.moved + [t]
    ensures InOrder(q')
  {
    hide Passing, Only;
    var t := q.work[0];
    PassingPop(Immediate, Only(Immediate, q.ran), q);
    PassingPop(NonNestable, Only(NonNestable, q.ran) + Only(NonNestable, q.deferred), q);
    PassingPop(Later, q.moved, q);
    OnlySnoc(Immediate, q.ran, t);
    OnlySnoc(NonNestable, q.ran, t);
    OnlySnoc(NonNestable, q.deferred, t);
    Regroup(Only(NonNestable, q.ran), Only(NonNestable, q.deferred), [t]);
  }

  lemma SwapIncomingKept(q: Queues)
    requires QueuesOk(q) && q.work == []
    ensures QueuesOk(SwapIncoming(q))
  {
    var q' := SwapIncoming(q);
    assert Conserved(q') by { assert Places(q') == Places(q); }
    assert InOrder(q') by {
      PassingSwap(Immediate, Only(Immediate, q.ran), q);
      PassingSwap(NonNestable, Only(NonNestable, q.ran) + Only(NonNestable, q.deferred), q);
      PassingSwap(Later, q.moved, q);
    }
    hide Conserved, InOrder;
  }

  lemma PassingSwap(k: Kind, left: seq<Task>, q: Queues)
    requires q.work == [] && Passing(k, left, q.work, q.incoming, q.posted)
    ensures Passing(k, left, q.incoming, [], q.posted)
  {
    assert Only(k, []) == [];
    hide Only;
    assert left + [] + Only(k, q.incoming) == left + Only(k, q.incoming) + [];
  }

  lemma DelayFirstKept(q: Queues)
    requires QueuesOk(q) && q.work != [] && q.work[0].runTime != 0
    ensures QueuesOk(DelayFirst(q))
  {
    var q', t := DelayFirst(q), q.work[0];
    assert InOrder(q') by { InOrderPop(q, q'); }
    assert Conserved(q') by {
      hide InOrder, EntriesOk;
      PopFront(q.work);
      PushTask(q.delayed, Entry(t, q.nextSequence, |q.moved|));
      hide TasksOf;
      assert Places(q') == Places(q);
    }
    assert EntriesOk(q') by { DelayFirstEntries(q); }
  }

  lemma DelayFirstEntries(q: Queues)
    requires EntriesOk(q) && q.work != [] && q.work[0].runTime != 0
    ensures EntriesOk(DelayFirst(q))
  {
    var q', t := DelayFirst(q), q.work[0];
    PopFront(q.work);
    assert t in q.work;
    forall e | e in q'.delayed ensures EntryOk(q', e) {
      assert e in q.delayed ==> EntryOk(q, e);
    }
    forall i, j | 0 <= i < j < |q'.delayed| ensures q'.delayed[i].order < q'.delayed[j].order {
      assert q.delayed[i] in q.delayed && EntryOk(q, q.delayed[i]);
    }
  }

  lemma FirstMovedConserved(q: Queues)
    requires Conserved(q) && q.work != []
    ensures Conserved(DeferFirst(q)) && Conserved(RunFirst(q))
  {
    PopFront(q.work);
    assert Places(DeferFirst(q)) == Places(q);
    assert Places(RunFirst(q)) == Places(q);
  }

  lemma DeferFirstKept(q: Queues)
    requires QueuesOk(q) && q.work != [] && q.work[0].runTime == 0 && !q.work[0].nestable
    ensures QueuesOk(DeferFirst(q))
  {
    hide InOrder, Conserved;
    InOrderPop(q, DeferFirst(q));
    FirstMovedConserved(q);
  }

  lemma RunFirstKept(q: Queues)
    requires QueuesOk(q) && q.work != [] && q.work[0].runTime == 0 && q.work[0].nestable
    ensures QueuesOk(RunFirst(q))
  {
    hide InOrder, Conserved;
    InOrderPop(q, RunFirst(q));
    FirstMovedConserved(q);
  }

  lemma PopDelayedConserved(q: Queues, i: nat, at: int)
    requires Conserved(q) && i < |q.delayed|
    ensures Conserved(PopDelayed(q, i, at))
  {
    EraseTasks(q.delayed, i);
    hide TasksOf;
    assert Places(PopDelayed(q, i, at)) == Places(q);
  }

  lemma PopDelayedInOrder(q: Queues, i: nat, at: int)
    requires InOrder(q) && i < |q.delayed| && q.delayed[i].task.runTime > 0
    ensures InOrder(PopDelayed(q, i, at))
  {
    var t := q.delayed[i].task;
    hide Only, Passing;
    OnlySnoc(Immediate, q.ran, t);
    OnlySnoc(NonNestable, q.ran, t);
    OnlySnoc(NonNestable, q.deferred, t);
  }

  lemma PopDelayedKept(q: Queues, i: nat, at: int)
    requires QueuesOk(q) && i < |q.delayed| && q.delayed[i].task.runTime <= at
    ensures QueuesOk(PopDelayed(q, i, at))
  {
    assert EntryOk(q, q.delayed[i]);
    hide Conserved, InOrder, EntriesOk, PopDelayed;
    PopDelayedConserved(q, i, at);
    PopDelayedInOrder(q, i, at);
    PopDelayedEntries(q, i, at);
  }

  lemma PopDelayedEntries(q: Queues, i: nat, at: int)
    requires EntriesOk(q) && i < |q.delayed| && q.delayed[i].task.runTime <= at
    ensures EntriesOk(PopDelayed(q, i, at))
  {
    var q' := PopDelayed(q, i, at);
    forall e | e in q'.delayed ensures EntryOk(q', e) {
      assert e in q.delayed;
      assert EntryOk(q, e);
    }
  }

  lemma RunDeferredInOrder(q: Queues)
    requires InOrder(q) && q.deferred != [] && !q.deferred[0].nestable
    ensures InOrder(RunDeferred(q))
  {
    var t, rest := q.deferred[0], q.deferred[1..];
    PopOnly(NonNestable, q.deferred);
    hide Only, Passing;
    OnlySnoc(Immediate, q.ran, t);
    OnlySnoc(NonNestable, q.ran, t);
    Regroup(Only(NonNestable, q.ran), [t], Only(NonNestable, rest));
    assert Only(NonNestable, q.ran + [t]) + Only(NonNestable, rest)
        == Only(NonNestable, q.ran) + Only(NonNestable, q.deferred);
    assert Only(Immediate, q.ran + [t]) == Only(Immediate, q.ran);
  }

  lemma RunDeferredConserved(q: Queues)
    requires Conserved(q) && q.deferred != []
    ensures Conserved(RunDeferred(q))
  {
    PopFront(q.deferred);
    assert Places(RunDeferred(q)) == Places(q);
  }

  lemma RunDeferredKept(q: Queues)
    requires QueuesOk(q) && q.deferred != []
    ensures QueuesOk(RunDeferred(q))
  {
    hide InOrder, Conserved;
    assert q.deferred[0] in q.deferred;
    RunDeferredConserved(q);
    RunDeferredInOrder(q);
  }

  // ----- what the pump keeps -----

  predicate Blocked(pc: Pc) {
    pc.IdleCheck? || pc.IdleAsleep? || pc.BeforeWait? || pc.TimedAsleep? || pc.TimedCheck?
  }

  /** doWork has found nothing, and the next doWork is still to come. */
  predicate Quiet(pc: Pc) {
    Blocked(pc) || pc.Decide? || pc.DoIdle? || pc == DoDelayed(false)
  }

  ghost predicate ClockOk(p: Pump) {
    0 <= p.clock && p.recentTime <= p.clock
  }

  /** Posted work is announced: the flag is up, or somebody is about to raise it. */
  ghost predicate Announced(s: State) {
    s.q.incoming != [] ==> s.p.haveWork || s.p.posters > 0
  }

  /**
   * A timed wait was computed from an earlier reading; a pump that keeps the lock to wait again has
   * seen the flag down.
   */
  ghost predicate WaitOk(p: Pump) {
    && (p.pc.BeforeWait? ==>
          && p.pc.readAt <= p.clock && WaitMs(p.delayedWorkTime, p.pc.readAt) > 0
          && (p.pc.locked ==> !p.haveWork))
    && (p.pc.TimedAsleep? ==>
          && p.pc.readAt <= p.pc.began <= p.clock && WaitMs(p.delayedWorkTime, p.pc.readAt) > 0
          && p.pc.until == p.pc.began + WaitMs(p.delayedWorkTime, p.pc.readAt) * MILLISECOND)
  }

  ghost predicate PumpOk(s: State) {
    var p := s.p;
    && (p.pc.DoWorkItem? ==> s.q.work != [])
    && (Quiet(p.pc) ==> s.q.work == [] && Announced(s))
    && (p.pc.DoIdle? && s.q.deferred == [] ==> p.delayedWorkTime == Earliest(s.q.delayed))
    && (Blocked(p.pc) || p.pc.Decide? ==> s.q.deferred == [] && p.delayedWorkTime == Earliest(s.q.delayed))
    && (p.pc.IdleCheck? || p.pc.IdleAsleep? ==> p.delayedWorkTime == 0)
    && (p.pc.BeforeWait? || p.pc.TimedAsleep? || p.pc.TimedCheck? ==> p.delayedWorkTime != 0)
    && WaitOk(p)
    && (p.pc.IdleAsleep? && p.haveWork ==> p.notifiers > 0)
  }

  ghost predicate Inv(s: State) {
    QueuesOk(s.q) && ClockOk(s.p) && PumpOk(s)
  }

  /** The end of the wait: late by the time between the two clock readings, early by what the cast cut off. */
  lemma WaitEndsAt(deadline: int, readAt: int, began: int)
    requires WaitMs(deadline, readAt) > 0
    ensures began + WaitMs(deadline, readAt) * MILLISECOND
         == deadline + (began - readAt) - (deadline - readAt) % MILLISECOND
  {}

  lemma ReloadKept(s: State)
    requires Inv(s)
    ensures Inv(ReloadStep(s))
  {
    hide QueuesOk;
    if s.p.pc.DoWork? && s.q.work == [] && s.q.incoming != [] { SwapIncomingKept(s.q); }
  }

  lemma WorkItemKept(s: State)
    requires Inv(s)
    ensures Inv(WorkItemStep(s))
  {
    hide QueuesOk;
    if s.p.pc.DoWorkItem? && s.q.work != [] {
      if s.q.work[0].runTime != 0 {
        DelayFirstKept(s.q);
      } else if s.q.work[0].nestable {
        RunFirstKept(s.q);
      } else {
        DeferFirstKept(s.q);
      }
    }
  }

  lemma PostKept(s: State, delay: int, nestable: bool)
    requires Inv(s)
    ensures Inv(PostStep(s, delay, nestable))
  {
    hide QueuesOk;
    PushIncomingKept(s.q, RunTime(s.p.clock, delay), nestable);
  }

  lemma TakeKept(s: State, i: nat)
    requires Inv(s) && s.p.pc.DoDelayed? && i < |s.q.delayed| && s.q.delayed[i].task.runTime <= s.p.clock
    ensures Inv(TakeDelayed(s, i))
  {
    hide QueuesOk;
    PopDelayedKept(s.q, i, s.p.clock);
  }

  lemma NotYetKept(s: State, recent: int)
    requires Inv(s) && s.p.pc.DoDelayed? && s.q.delayed != [] && recent <= s.p.clock
    ensures Inv(s.(p := NothingDelayed(s.p.(recentTime := recent, delayedWorkTime := MinTime(s.q.delayed)))))
  {
    hide QueuesOk;
  }

  lemma RecentKept(s: State, recent: int)
    requires Inv(s) && s.p.pc.DoDelayed? && recent <= s.p.clock
    ensures Inv(s.(p := s.p.(recentTime := recent)))
  {
    hide QueuesOk;
  }

  lemma NoneDelayedKept(s: State)
    requires Inv(s) && s.p.pc.DoDelayed? && s.q.delayed == []
    ensures Inv(s.(p := NothingDelayed(s.p.(recentTime := 0, delayedWorkTime := 0))))
  {
    hide QueuesOk;
  }

  lemma RecentInPast(s: State, next: int)
    requires Inv(s)
    ensures RecentTime(s, next) <= s.p.clock
  {}

  lemma TryTopKept(s: State, i: nat)
    requires Inv(s) && s.p.pc.DoDelayed? && i < |s.q.delayed| && IsTop(s.q.delayed, i)
    ensures Inv(TryTop(s, i))
  {
    hide Inv, TakeDelayed, NothingDelayed, MinTime, RecentTime, IsTop;
    var next := s.q.delayed[i].task.runTime;
    var recent := RecentTime(s, next);
    RecentInPast(s, next);
    TopHasMinTime(s.q.delayed, i);
    if next <= recent {
      RecentKept(s, recent);
      TakeKept(s.(p := s.p.(recentTime := recent)), i);
    } else {
      NotYetKept(s, recent);
    }
  }

  lemma DelayedKept(s: State, i: nat)
    requires Inv(s)
    ensures Inv(DelayedStep(s, i))
  {
    hide Inv, TryTop, NothingDelayed;
    if IsTop(s.q.delayed, i) { assert i < |s.q.delayed|; }
    if s.p.pc.DoDelayed? {
      if s.q.delayed == [] {
        NoneDelayedKept(s);
      } else if IsTop(s.q.delayed, i) {
        TryTopKept(s, i);
      }
    }
  }

  lemma IdleKept(s: State)
    requires Inv(s)
    ensures Inv(IdleStep(s))
  {
    hide QueuesOk;
    if s.p.pc.DoIdle? && s.q.deferred != [] { RunDeferredKept(s.q); }
  }

  /** Steps of the pump alone, and of the threads that announce work. */
  lemma PumpStepKept(s: State, a: Action)
    requires Inv(s)
    requires !a.Post? && !a.Reload? && !a.WorkItem? && !a.Delayed? && !a.Idle?
    ensures Inv(Apply(s, a))
  {
    hide QueuesOk, WaitMs, Earliest;
  }

  lemma ApplyKeepsInv(s: State, a: Action)
    requires Inv(s)
    ensures Inv(Apply(s, a))
  {
    hide Inv;
    match a
    case Post(delay, nestable) => PostKept(s, delay, nestable);
    case Reload => ReloadKept(s);
    case WorkItem => WorkItemKept(s);
    case Delayed(i) => DelayedKept(s, i);
    case Idle => IdleKept(s);
    case _ => PumpStepKept(s, a);
  }

  /** The invariant holds after every run, however the threads interleave. */
  lemma {:induction false} InvAfterEveryRun(clock: nat, run: seq<Action>)
    ensures Inv(After(clock, run))
  {
    if run == [] {
      assert Only(Immediate, []) == [] && Only(NonNestable, []) == [] && Only(Later, []) == [];
    } else {
      InvAfterEveryRun(clock, run[..|run| - 1]);
      ApplyKeepsInv(After(clock, run[..|run| - 1]), run[|run| - 1]);
    }
  }

  // ----- what the invariant means -----

  /**
   * A pump that blocks has nothing left to do: no work and no deferred task, a deadline
   * that is the earliest delayed run time (none exactly when nothing is delayed), and
   * incoming tasks only if the flag is up or its poster is about to raise it.
   */
  lemma BlockedPumpIsIdle(clock: nat, run: seq<Action>)
    ensures var s := After(clock, run);
            Blocked(s.p.pc) ==>
              && s.q.work == [] && s.q.deferred == []
              && (s.q.delayed == [] <==> s.p.delayedWorkTime == 0)
              && (s.q.delayed != [] ==> s.p.delayedWorkTime == MinTime(s.q.delayed))
              && Announced(s)
  {
    InvAfterEveryRun(clock, run);
    var s := After(clock, run);
    if s.q.delayed != [] {
      MinTimeIsLeast(s.q.delayed);
      var e :| e in s.q.delayed && e.task.runTime == MinTime(s.q.delayed);
      assert EntryOk(s.q, e);
    }
  }

  /** The untimed wait never sleeps on posted work: a wake-up is owed, or its poster has yet to announce it. */
  lemma UntimedSleepIsSafe(clock: nat, run: seq<Action>)
    ensures var s := After(clock, run);
            s.p.pc.IdleAsleep? && s.q.incoming != [] ==> s.p.posters > 0 || s.p.notifiers > 0
  {
    InvAfterEveryRun(clock, run);
  }

  /**
   * The timed wait ends after the earliest deadline by no more than the time that passed between
   * reading the clock for the delay and beginning to wait, exactly on time while that is no more
   * than what the cast to milliseconds cut off; and its time-out leads back to doWork.
   */
  lemma TimedSleepIsBounded(clock: nat, run: seq<Action>)
    ensures var s := After(clock, run); var pc := s.p.pc;
            pc.TimedAsleep? ==>
              && s.q.delayed != [] && pc.readAt <= pc.began <= s.p.clock && pc.began < pc.until
              && pc.until <= MinTime(s.q.delayed) + (pc.began - pc.readAt)
              && (pc.until <= MinTime(s.q.delayed) <==>
                  pc.began - pc.readAt <= (MinTime(s.q.delayed) - pc.readAt) % MILLISECOND)
              && (pc.until <= s.p.clock ==> After(clock, run + [TimeOut]).p.pc.DoWork?)
  {
    var s := After(clock, run);
    AfterStep(clock, run, TimeOut);
    hide After, QueuesOk, MinTime, WaitMs;
    BlockedPumpIsIdle(clock, run);
    InvAfterEveryRun(clock, run);
    if s.p.pc.TimedAsleep? {
      WaitEndsAt(s.p.delayedWorkTime, s.p.pc.readAt, s.p.pc.began);
    }
  }

  lemma AfterStep(clock: nat, run: seq<Action>, a: Action)
    ensures After(clock, run + [a]) == Apply(After(clock, run), a)
  {
    assert (run + [a])[..|run|] == run;
  }

  /** A timed sleep on posted work that nobody is going to announce any more. */
  ghost predicate Missed(s: State) {
    s.p.pc.TimedAsleep? && s.q.incoming != [] && s.p.posters == 0 && s.p.notifiers == 0
  }

  /** The work is there and its announcement is over. */
  ghost predicate FullyAnnounced(s: State) {
    s.q.incoming != [] && s.p.posters == 0 && s.p.notifiers == 0
  }

  /**
   * In every run, a timed sleep comes to miss work exactly by being entered on fully announced work,
   * and then with the flag up.
   */
  lemma MissBegins(clock: nat, run: seq<Action>, a: Action)
    ensures var s := After(clock, run);
            !Missed(s) ==>
              && (Missed(Apply(s, a)) <==> a.BeginWait? && s.p.pc.BeforeWait? && FullyAnnounced(s))
              && (Missed(Apply(s, a)) ==> s.p.haveWork && !s.p.pc.locked)
  {
    InvAfterEveryRun(clock, run);
    hide After, QueuesOk, WaitMs, Earliest;
  }

  lemma MissStays(s: State, a: Action)
    requires Missed(s) && Apply(s, a).p.pc.TimedAsleep?
    ensures Missed(Apply(s, a))
  {}

  /**
   * A timed sleep misses work, from its first moment to its last, exactly if it is entered on
   * fully announced work; a sleep entered with the flag down never misses any.
   */
  lemma {:induction false} TimedSleepMissesIff(clock: nat, run: seq<Action>, more: seq<Action>)
    requires After(clock, run).p.pc.BeforeWait?
    requires forall k :: 0 <= k <= |more| ==> After(clock, run + [BeginWait] + more[..k]).p.pc.TimedAsleep?
    ensures var s := After(clock, run);
            && (Missed(After(clock, run + [BeginWait] + more)) <==> FullyAnnounced(s))
            && (FullyAnnounced(s) ==> s.p.haveWork)
    decreases |more|
  {
    var entered := run + [BeginWait];
    AfterStep(clock, run, BeginWait);
    MissBegins(clock, run, BeginWait);
    hide After;
    if more == [] {
      assert entered + more == entered;
    } else {
      var n := |more| - 1;
      var before, a := more[..n], more[n];
      assert more[..|more|] == more && before[..n] == before;
      forall k | 0 <= k <= |before| ensures After(clock, entered + before[..k]).p.pc.TimedAsleep? {
        assert before[..k] == more[..k];
      }
      TimedSleepMissesIff(clock, run, before);
      assert entered + more == (entered + before) + [a];
      AfterStep(clock, entered + before, a);
      MissBegins(clock, entered + before, a);
      if Missed(After(clock, entered + before)) {
        MissStays(After(clock, entered + before), a);
      }
    }
  }

  /**
   * Such a run exists: the untimed guarantee does not extend to the timed wait, which looks at
   * the flag only after waking.
   */
  lemma TimedSleepCanMissWork() returns (run: seq<Action>)
    ensures Missed(After(0, run))
  {
    run := MissedDecision();
    hide After;
    AfterStep(0, run, Post(0, true));
    run := run + [Post(0, true)];
    AfterStep(0, run, SetFlag);
    run := run + [SetFlag];
    AfterStep(0, run, SetFlag);
    run := run + [SetFlag];
    AfterStep(0, run, NotifyOne);
    run := run + [NotifyOne];
    AfterStep(0, run, NotifyOne);
    run := run + [NotifyOne];
    AfterStep(0, run, ChooseWait);
    run := run + [ChooseWait];
    AfterStep(0, run, BeginWait);
    run := run + [BeginWait];
  }

  /** The pump has found that task not yet due and is about to choose a wait. */
  lemma MissedDecision() returns (run: seq<Action>)
    ensures var early := Task(0, 10 * MILLISECOND, true);
            After(0, run) == State(Queues([], [], [Entry(early, 0, 0)], [], 1, [early], [early], [], []),
                                   Pump(Decide, true, false, 10 * MILLISECOND, 0, 0, 1, 0))
  {
    run := MissedStart();
    hide After;
    var entry := Entry(Task(0, 10 * MILLISECOND, true), 0, 0);
    assert IsTop([entry], 0);
    AfterStep(0, run, Delayed(0));
    run := run + [Delayed(0)];
    AfterStep(0, run, Idle);
    run := run + [Idle];
  }

  /** A delayed task is posted and reaches the delayed queue before its poster announces it. */
  lemma MissedStart() returns (run: seq<Action>)
    ensures var early := Task(0, 10 * MILLISECOND, true);
            After(0, run) == State(Queues([], [], [Entry(early, 0, 0)], [], 1, [early], [early], [], []),
                                   Pump(DoDelayed(false), true, false, 10 * MILLISECOND, 0, 0, 1, 0))
  {
    run := [];
    AfterStep(0, run, Post(10 * MILLISECOND, true));
    run := run + [Post(10 * MILLISECOND, true)];
    AfterStep(0, run, Reload);
    run := run + [Reload];
    AfterStep(0, run, WorkItem);
    run := run + [WorkItem];
    AfterStep(0, run, Reload);
    run := run + [Reload];
  }

  /** Every posted task is in exactly one place: a queue, or the tasks taken to run. */
  lemma EachTaskInOnePlace(clock: nat, run: seq<Action>, t: Task)
    ensures var q := After(clock, run).q;
            multiset(q.incoming)[t] + multiset(q.work)[t] + multiset(TasksOf(q.delayed))[t]
            + multiset(q.deferred)[t] + multiset(q.ran)[t] == if t in q.posted then 1 else 0
  {
    InvAfterEveryRun(clock, run);
    var q := After(clock, run).q;
    assert Places(q)[t] == multiset(q.posted)[t];
    PostedOnce(q.posted, t);
  }

  lemma {:induction false} PostedOnce(posted: seq<Task>, t: Task)
    requires forall i :: 0 <= i < |posted| ==> posted[i].id == i
    ensures multiset(posted)[t] == if t in posted then 1 else 0
  {
    if posted != [] {
      var n := |posted| - 1;
      PostedOnce(posted[..n], t);
      assert posted == posted[..n] + [posted[n]];
    }
  }

  /** The tasks of one kind that ran are a prefix of those posted: posting order, nothing skipped. */
  lemma RunInPostingOrder(clock: nat, run: seq<Action>)
    ensures var q := After(clock, run).q;
            && Only(Immediate, q.ran) <= Only(Immediate, q.posted)
            && Only(NonNestable, q.ran) <= Only(NonNestable, q.posted)
  {
    InvAfterEveryRun(clock, run);
  }

  /** No entry leaves the delayed queue before its run time. */
  lemma NeverTakenEarly(clock: nat, run: seq<Action>)
    ensures forall k :: k in After(clock, run).q.taken ==> k.entry.task.runTime <= k.at
  {
    InvAfterEveryRun(clock, run);
  }

  // ----- the order of the delayed queue -----

  /** For equal times the earlier entry is preferred exactly while the wrapped distance is below 2^31. */
  lemma EqualTimesOrder(a: Entry, b: Entry)
    requires a.task.runTime == b.task.runTime
    requires a.sequence == Wrap32(a.order) && b.sequence == Wrap32(b.order) && a.order < b.order
    ensures Less(b, a) <==> 0 < (b.order - a.order) % TWO_TO_32 < 0x8000_0000
  {
    WrapDifference(b.order, a.order);
  }

  lemma WrapDifference(x: int, y: int)
    ensures Wrap32(Wrap32(x) - Wrap32(y)) == Wrap32(x - y)
    ensures Wrap32(x - y) > 0 <==> 0 < (x - y) % TWO_TO_32 < 0x8000_0000
  {
    WrapIsCongruent(x);
    WrapIsCongruent(y);
    WrapOfCongruent(Wrap32(x) - Wrap32(y), x - y, (x - Wrap32(x)) / TWO_TO_32 - (y - Wrap32(y)) / TWO_TO_32);
    PositiveWrapIff(x - y);
    hide Wrap32;
  }

  lemma WrapIsCongruent(x: int)
    ensures x - Wrap32(x) == (x - Wrap32(x)) / TWO_TO_32 * TWO_TO_32
  {}

  lemma WrapOfCongruent(a: int, b: int, k: int)
    requires b - a == k * TWO_TO_32
    ensures Wrap32(a) == Wrap32(b)
  {}

  lemma PositiveWrapIff(x: int)
    ensures Wrap32(x) > 0 <==> 0 < x % TWO_TO_32 < 0x8000_0000
  {}

  /** The orders of entries of one time, the only ones compared by sequence number, are less than 2^31 apart. */
  predicate Near(a: Entry, b: Entry) {
    a.task.runTime == b.task.runTime ==> -0x8000_0000 < a.order - b.order < 0x8000_0000
  }

  ghost predicate ShortSpan(q: seq<Entry>) {
    forall a, b :: a in q && b in q ==> Near(a, b)
  }

  predicate Before(a: Entry, b: Entry) {
    a.task.runTime < b.task.runTime || (a.task.runTime == b.task.runTime && a.order < b.order)
  }

  /** For such entries the wrapped comparison is the order by time and posting. */
  lemma LessIsBefore(a: Entry, b: Entry)
    requires a.sequence == Wrap32(a.order) && b.sequence == Wrap32(b.order)
    requires Near(a, b)
    ensures Less(a, b) <==> Before(b, a)
  {
    WrapDifference(a.order, b.order);
  }

  /** In every run the top of the delayed queue is first by time, then by posting order. */
  lemma TakenInOrder(clock: nat, run: seq<Action>, i: nat)
    requires var q := After(clock, run).q.delayed; IsTop(q, i) && ShortSpan(q)
    ensures var q := After(clock, run).q.delayed; forall j :: 0 <= j < |q| && j != i ==> Before(q[i], q[j])
  {
    InvAfterEveryRun(clock, run);
    var s := After(clock, run);
    var q := s.q.delayed;
    hide After, Conserved, InOrder, PumpOk, Wrap32, Less;
    forall j | 0 <= j < |q| && j != i ensures Before(q[i], q[j]) {
      assert EntryOk(s.q, q[i]) && EntryOk(s.q, q[j]);
      assert !Less(q[i], q[j]);
      LessIsBefore(q[i], q[j]);
    }
  }

  /** While the span is short the queue always has a top: the entry first by time and order. */
  lemma {:induction false} TopExists(q: seq<Entry>) returns (i: nat)
    requires q != [] && ShortSpan(q)
    requires forall e :: e in q ==> e.sequence == Wrap32(e.order)
    ensures IsTop(q, i)
  {
    hide Less, Wrap32;
    if |q| == 1 {
      i := 0;
      LessIsBefore(q[0], q[0]);
    } else {
      var n := |q| - 1;
      var rest := q[..n];
      assert forall e :: e in rest ==> e in q;
      var k := TopExists(rest);
      i := if Before(q[n], q[k]) then n else k;
      forall j | 0 <= j < |q| ensures !Less(q[i], q[j]) {
        assert q[i] in q && q[j] in q && q[k] in q;
        LessIsBefore(q[i], q[j]);
        LessIsBefore(q[k], q[j]);
        assert j < n ==> !Less(rest[k], rest[j]);
      }
    }
  }

  /** Posting order of delayed tasks is the order in which they enter the delayed queue. */
  lemma MovedInPostingOrder(clock: nat, run: seq<Action>)
    ensures var q := After(clock, run).q;
            && q.moved <= Only(Later, q.posted)
            && forall e :: e in q.delayed ==> e.order < |q.moved| && e.task == q.moved[e.order]
  {
    InvAfterEveryRun(clock, run);
    var q := After(clock, run).q;
    forall e | e in q.delayed ensures e.order < |q.moved| && e.task == q.moved[e.order] {
      assert EntryOk(q, e);
    }
  }

  /** With live orders exactly 2^31 apart neither of two equal times is preferred, and beyond that the later one is. */
  lemma LongSpanBreaksOrder(t: Task, u: Task, n: nat)
    requires t.runTime == u.runTime
    ensures !Less(Entry(u, Wrap32(n + 0x8000_0000), n + 0x8000_0000), Entry(t, Wrap32(n), n))
    ensures Less(Entry(t, Wrap32(n), n), Entry(u, Wrap32(n + 0x8000_0001), n + 0x8000_0001))
  {
    WrapDifference(n + 0x8000_0000, n);
    WrapDifference(n, n + 0x8000_0001);
  }

  /** Spread over three quarters of the sequence numbers, three equal times form a cycle: no entry is a top. */
  lemma LongSpanHasNoTop(t: Task, n: nat, i: nat)
    ensures var a, b, c := n, n + 0x6000_0000, n + 0xC000_0000;
            !IsTop([Entry(t, Wrap32(a), a), Entry(t, Wrap32(b), b), Entry(t, Wrap32(c), c)], i)
  {
    var a, b, c := n, n + 0x6000_0000, n + 0xC000_0000;
    var q := [Entry(t, Wrap32(a), a), Entry(t, Wrap32(b), b), Entry(t, Wrap32(c), c)];
    WrapDifference(b, a);
    WrapDifference(c, b);
    WrapDifference(a, c);
    assert Less(q[1], q[0]) && Less(q[2], q[1]) && Less(q[0], q[2]);
  }
}
