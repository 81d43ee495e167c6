/**
 * src/timer_manager.cpp as a state machine. Every step is one stretch of code
 * run under the mutex, or one notification; callers of add, remove and destory
 * and the worker interleave freely, also while a handler runs unlocked.
 */
module TimerModel {

  datatype TimerData = TimerData(period: int, valid: bool)

  datatype TimeEvent = TimeEvent(next: int, ref: nat)

  /** Where the worker thread is. */
  datatype Worker =
    | LoopHead
    | Waiting                  // cond_.wait
    | WaitingUntil(time: int)  // cond_.wait_until
    | Firing(te: TimeEvent)    // handler running, mutex released
    | Returned

  /** What happened so far. A timer is named by the position of its Added entry. */
  datatype Entry =
    | Added(id: nat, when: int, period: int)
    | Removed(timer: nat)
    | Fired(timer: nat, scheduled: int, now: int)

  datatype State = State(
    done: bool,
    events: seq<TimerData>,
    timeEvents: seq<TimeEvent>,  // the multiset, in its iteration order
    freeIds: seq<nat>,           // the stack, top last
    worker: Worker,
    notifies: nat,               // threads that released the mutex and have yet to notify
    log: seq<Entry>,
    owner: seq<nat>)             // for each id, the timer that last got it

  datatype Action =
    | Add(when: int, period: int)
    | Remove(id: nat)
    | Destroy
    | Notify
    | Wake                       // time-out or spurious wake-up
    | WorkerTurn(now: int)
    | FinishFiring

  const INITIAL := State(false, [], [], [], LoopHead, 0, [], [])

  // ----- the containers -----

  /** std::multiset::insert puts an entry behind those with an equal key. */
  function Insert(te: TimeEvent, list: seq<TimeEvent>): seq<TimeEvent> {
    if list == [] || te.next < list[0].next then [te] + list
    else [list[0]] + Insert(te, list[1..])
  }

  /** Position of the first entry of the timer id, or the length of the list. */
  function FindRef(list: seq<TimeEvent>, id: nat): (i: nat)
    ensures i <= |list| && (i < |list| ==> list[i].ref == id)
  {
    if list == [] || list[0].ref == id then 0 else 1 + FindRef(list[1..], id)
  }

  function Erase<T>(list: seq<T>, i: nat): seq<T>
    requires i < |list|
  {
    list[..i] + list[i + 1..]
  }

  // ----- the steps -----

  function NewId(s: State): nat {
    if s.freeIds == [] then |s.events| else s.freeIds[|s.freeIds| - 1]
  }

  function AddStep(s: State, when: int, period: int): State {
    var id, data, timer := NewId(s), TimerData(period, true), |s.log|;
    var s' := s.(timeEvents := Insert(TimeEvent(when, id), s.timeEvents),
                 notifies := s.notifies + 1,
                 log := s.log + [Added(id, when, period)]);
    if s.freeIds == [] then
      s'.(events := s.events + [data], owner := s.owner + [timer])
    else if id < |s.events| && id < |s.owner| then
      s'.(freeIds := s.freeIds[..|s.freeIds| - 1], events := s.events[id := data], owner := s.owner[id := timer])
    else
      s
  }

  function RemoveStep(s: State, id: nat): State {
    if |s.events| <= id || |s.owner| <= id then s
    else
      var i := FindRef(s.timeEvents, id);
      var s' := s.(events := s.events[id := s.events[id].(valid := false)],
                   notifies := s.notifies + 1,
                   log := s.log + [Removed(s.owner[id])]);
      if i < |s.timeEvents| then
        s'.(freeIds := s.freeIds + [id], timeEvents := Erase(s.timeEvents, i))
      else
        s'
  }

  function DestroyStep(s: State): State {
    s.(done := true, notifies := s.notifies + 1)
  }

  function Awake(w: Worker): Worker {
    if w.Waiting? || w.WaitingUntil? then LoopHead else w
  }

  function NotifyStep(s: State): State {
    if s.notifies == 0 then s else s.(notifies := s.notifies - 1, worker := Awake(s.worker))
  }

  /** One evaluation of the loop head and of the branch it takes, up to a wait or an unlock. */
  function WorkerTurnStep(s: State, now: int): State {
    if !s.worker.LoopHead? then s
    else if s.done then s.(worker := Returned)
    else if s.timeEvents == [] then s.(worker := Waiting)
    else
      var te := s.timeEvents[0];
      if now < te.next then s.(worker := WaitingUntil(te.next))
      else if te.ref < |s.owner| then
        s.(worker := Firing(te), timeEvents := s.timeEvents[1..],
           log := s.log + [Fired(s.owner[te.ref], te.next, now)])
      else s
  }

  /** After the handler: schedule the next firing, or give the id back. */
  function FinishFiringStep(s: State): State {
    if !s.worker.Firing? || s.worker.te.ref >= |s.events| then s
    else
      var te := s.worker.te;
      var data := s.events[te.ref];
      if data.valid && data.period > 0 then
        s.(timeEvents := Insert(te.(next := te.next + data.period), s.timeEvents), worker := LoopHead)
      else
        s.(events := s.events[te.ref := data.(valid := false)], freeIds := s.freeIds + [te.ref], worker := LoopHead)
  }

  function Apply(s: State, a: Action): State {
    match a
    case Add(when, period) => AddStep(s, when, period)
    case Remove(id) => RemoveStep(s, id)
    case Destroy => DestroyStep(s)
    case Notify => NotifyStep(s)
    case Wake => s.(worker := Awake(s.worker))
    case WorkerTurn(now) => WorkerTurnStep(s, now)
    case FinishFiring => FinishFiringStep(s)
  }

  /** The state after a run of actions. */
  function After(run: seq<Action>): State {
    if run == [] then INITIAL else Apply(After(run[..|run| - 1]), run[|run| - 1])
  }

  // ----- what is true of every state -----

  function Refs(list: seq<TimeEvent>): (r: seq<nat>)
    ensures |r| == |list|
  {
    seq(|list|, i requires 0 <= i < |list| => list[i].ref)
  }

  function InFlight(w: Worker): multiset<nat> {
    if w.Firing? then multiset{w.te.ref} else multiset{}
  }

  /** Every place an id can be, with multiplicity. */
  function Places(s: State): multiset<nat> {
    multiset(s.freeIds) + multiset(Refs(s.timeEvents)) + InFlight(s.worker)
  }

  /** Each id in use so far is in exactly one place, once. */
  ghost predicate IdsPartitioned(s: State) {
    forall id: nat :: Places(s)[id] == if id < |s.events| then 1 else 0
  }

  ghost predicate Sorted(list: seq<TimeEvent>) {
    forall i, j :: 0 <= i < j < |list| ==> list[i].next <= list[j].next
  }

  function FireCount(log: seq<Entry>, timer: nat): nat {
    if log == [] then 0
    else
      var last := log[|log| - 1];
      FireCount(log[..|log| - 1], timer) + if last.Fired? && last.timer == timer then 1 else 0
  }

  /** The firing recorded at position i obeys the timer's schedule. */
  ghost predicate FiringOk(log: seq<Entry>, i: nat)
    requires i < |log| && log[i].Fired?
  {
    var f, t := log[i], log[i].timer;
    && t < i && log[t].Added?
    && f.scheduled == log[t].when + FireCount(log[..i], t) * log[t].period
    && f.scheduled <= f.now
    && Removed(t) !in log[..i]
    && (log[t].period <= 0 ==> FireCount(log[..i], t) == 0)
  }

  ghost predicate LogOk(log: seq<Entry>) {
    && (forall i :: 0 <= i < |log| && log[i].Fired? ==> FiringOk(log, i))
    && (forall i :: 0 <= i < |log| && log[i].Removed? ==> log[i].timer < i)
  }

  /** What the manager holds about id belongs to its current owner. */
  ghost predicate OwnerOk(s: State, id: nat)
    requires id < |s.events| == |s.owner|
  {
    var t := s.owner[id];
    && t < |s.log| && s.log[t].Added? && s.log[t].id == id
    && s.events[id].period == s.log[t].period
    && (s.events[id].valid ==> Removed(t) !in s.log)
  }

  /** The entry te is due after k firings of its timer. */
  ghost predicate DueAfter(s: State, te: TimeEvent, k: int)
    requires |s.events| == |s.owner|
  {
    && te.ref < |s.events| && OwnerOk(s, te.ref)
    && te.next == s.log[s.owner[te.ref]].when + k * s.log[s.owner[te.ref]].period
  }

  ghost predicate PendingOk(s: State, te: TimeEvent)
    requires |s.events| == |s.owner|
  {
    && te.ref < |s.events|
    && DueAfter(s, te, FireCount(s.log, s.owner[te.ref]))
    && s.events[te.ref].valid
    && (s.events[te.ref].period <= 0 ==> FireCount(s.log, s.owner[te.ref]) == 0)
  }

  /** The worker sleeps only if no notification is owed to it or nothing is due before it wakes. */
  ghost predicate SleepOk(s: State) {
    && (s.worker.Waiting? && s.notifies == 0 ==> s.timeEvents == [] && !s.done)
    && (s.worker.WaitingUntil? && s.notifies == 0 ==>
          !s.done && forall te :: te in s.timeEvents ==> s.worker.time <= te.next)
  }

  ghost predicate OwnersOk(s: State) {
    |s.events| == |s.owner| && forall id :: 0 <= id < |s.owner| ==> OwnerOk(s, id)
  }

  ghost predicate PendingsOk(s: State) {
    |s.events| == |s.owner| && forall te :: te in s.timeEvents ==> PendingOk(s, te)
  }

  /** The firing under way is the last one counted. */
  ghost predicate FlightOk(s: State) {
    |s.events| == |s.owner| &&
    (s.worker.Firing? ==>
       && s.worker.te.ref < |s.events|
       && DueAfter(s, s.worker.te, FireCount(s.log, s.owner[s.worker.te.ref]) - 1))
  }

  ghost predicate Inv(s: State) {
    && IdsPartitioned(s)
    && Sorted(s.timeEvents)
    && LogOk(s.log)
    && OwnersOk(s)
    && PendingsOk(s)
    && FlightOk(s)
    && SleepOk(s)
  }

  // ----- container lemmas -----

  lemma RefsCons(te: TimeEvent, list: seq<TimeEvent>)
    ensures Refs([te] + list) == [te.ref] + Refs(list)
    ensures multiset(Refs([te] + list)) == multiset{te.ref} + multiset(Refs(list))
  {}

  lemma {:induction false} InsertRefs(te: TimeEvent, list: seq<TimeEvent>)
    ensures multiset(Refs(Insert(te, list))) == multiset(Refs(list)) + multiset{te.ref}
  {
    if list == [] || te.next < list[0].next {
      RefsCons(te, list);
    } else {
      InsertRefs(te, list[1..]);
      RefsCons(list[0], Insert(te, list[1..]));
      RefsCons(list[0], list[1..]);
      assert list == [list[0]] + list[1..];
    }
  }

  lemma {:induction false} InsertMembers(te: TimeEvent, list: seq<TimeEvent>)
    ensures forall x :: x in Insert(te, list) <==> x == te || x in list
  {
    if list != [] && te.next >= list[0].next {
      InsertMembers(te, list[1..]);
      assert list == [list[0]] + list[1..];
    }
  }

  lemma {:induction false} InsertSorted(te: TimeEvent, list: seq<TimeEvent>)
    requires Sorted(list)
    ensures Sorted(Insert(te, list))
  {
    if list != [] && te.next >= list[0].next {
      var rest := Insert(te, list[1..]);
      InsertSorted(te, list[1..]);
      InsertMembers(te, list[1..]);
      assert forall x :: x in list[1..] ==> list[0].next <= x.next;
      assert forall i :: 0 <= i < |rest| ==> rest[i] in rest;
    }
  }

  lemma {:induction false} FindRefAbsent(list: seq<TimeEvent>, id: nat)
    requires FindRef(list, id) == |list|
    ensures id !in multiset(Refs(list))
  {
    if list != [] {
      FindRefAbsent(list[1..], id);
      assert Refs(list) == [list[0].ref] + Refs(list[1..]);
    }
  }

  lemma EraseKeeps(list: seq<TimeEvent>, i: nat)
    requires i < |list| && Sorted(list)
    ensures var r := Erase(list, i);
            && Sorted(r)
            && multiset(Refs(list)) == multiset(Refs(r)) + multiset{list[i].ref}
            && (forall x :: x in r ==> x in list)
  {
    assert list == list[..i] + [list[i]] + list[i + 1..];
    assert Refs(list) == Refs(list[..i]) + [list[i].ref] + Refs(list[i + 1..]);
    assert Refs(Erase(list, i)) == Refs(list[..i]) + Refs(list[i + 1..]);
  }

  lemma RefInPlaces(s: State, te: TimeEvent)
    requires te in s.timeEvents
    ensures te.ref in multiset(Refs(s.timeEvents))
  {
    var i :| 0 <= i < |s.timeEvents| && s.timeEvents[i] == te;
    assert Refs(s.timeEvents)[i] == te.ref;
  }

  // ----- preservation -----

  lemma LogAppend(log: seq<Entry>, e: Entry)
    requires LogOk(log)
    requires e.Fired? ==> FiringOk(log + [e], |log|)
    requires e.Removed? ==> e.timer < |log|
    ensures LogOk(log + [e])
  {
    var log' := log + [e];
    forall i | 0 <= i < |log'| && log'[i].Fired? ensures FiringOk(log', i) {
      if i < |log| {
        assert log'[..i] == log[..i];
      }
    }
  }

  lemma FireCountAppend(log: seq<Entry>, e: Entry, timer: nat)
    ensures FireCount(log + [e], timer) == FireCount(log, timer) + if e.Fired? && e.timer == timer then 1 else 0
  {
    assert (log + [e])[..|log|] == log;
  }

  lemma {:induction false} FireCountZero(log: seq<Entry>, timer: nat)
    requires forall i :: 0 <= i < |log| && log[i].Fired? ==> log[i].timer != timer
    ensures FireCount(log, timer) == 0
  {
    if log != [] { FireCountZero(log[..|log| - 1], timer); }
  }

  /** A timer that is just being added has not fired and has not been removed. */
  lemma NewTimerIsUntouched(s: State)
    requires Inv(s)
    ensures FireCount(s.log, |s.log|) == 0 && Removed(|s.log|) !in s.log
  {
    forall i | 0 <= i < |s.log| && s.log[i].Fired? ensures s.log[i].timer != |s.log| {
      assert FiringOk(s.log, i);
    }
    FireCountZero(s.log, |s.log|);
  }

  /** An appended entry about other timers leaves what is known of an id alone. */
  lemma OwnerKept(s: State, s': State, id: nat, e: Entry)
    requires |s.events| == |s.owner| && |s'.events| == |s'.owner| && id < |s.events| <= |s'.events|
    requires s'.log == s.log + [e] && s'.owner[id] == s.owner[id] && OwnerOk(s, id)
    requires s'.events[id] == s.events[id]
    requires e == Removed(s.owner[id]) ==> !s.events[id].valid
    ensures OwnerOk(s', id)
    ensures FireCount(s'.log, s.owner[id]) ==
            FireCount(s.log, s.owner[id]) + if e.Fired? && e.timer == s.owner[id] then 1 else 0
  {
    FireCountAppend(s.log, e, s.owner[id]);
  }

  lemma OwnersDiffer(s: State, i: nat, j: nat)
    requires |s.events| == |s.owner| && i < |s.owner| && j < |s.owner| && i != j
    requires OwnerOk(s, i) && OwnerOk(s, j)
    ensures s.owner[i] != s.owner[j]
  {}

  lemma AddedIdIsFree(s: State)
    requires Inv(s)
    ensures NewId(s) < |s.events| || s.freeIds == []
    ensures NewId(s) !in multiset(Refs(s.timeEvents)) && NewId(s) !in InFlight(s.worker)
    ensures forall te :: te in s.timeEvents ==> te.ref != NewId(s)
    ensures s.worker.Firing? ==> s.worker.te.ref != NewId(s)
  {
    var id := NewId(s);
    assert s.freeIds != [] ==> id in s.freeIds;
    assert Places(s)[id] <= 1;
    forall te | te in s.timeEvents ensures te.ref != id {
      RefInPlaces(s, te);
    }
    assert s.worker.Firing? ==> s.worker.te.ref in InFlight(s.worker);
  }

  /** The indices the code uses are in range. */
  lemma IndicesInRange(s: State)
    requires Inv(s)
    ensures |s.events| == |s.owner|
    ensures s.worker.Firing? ==> s.worker.te.ref < |s.events|
    ensures s.timeEvents != [] ==> s.timeEvents[0].ref < |s.events|
    ensures s.freeIds != [] ==> NewId(s) < |s.events|
  {
    AddedIdIsFree(s);
    if s.timeEvents != [] {
      assert PendingOk(s, s.timeEvents[0]);
    }
  }

  lemma AddKeepsOthers(s: State, when: int, period: int, i: nat)
    requires Inv(s) && i < |s.events| && i != NewId(s)
    ensures var s' := AddStep(s, when, period);
            && |s'.events| == |s'.owner| >= |s.events|
            && OwnerOk(s', i) && s'.events[i] == s.events[i] && s'.owner[i] == s.owner[i]
            && FireCount(s'.log, s.owner[i]) == FireCount(s.log, s.owner[i])
  {
    AddedIdIsFree(s);
    OwnerKept(s, AddStep(s, when, period), i, Added(NewId(s), when, period));
  }

  lemma AddKeepsNew(s: State, when: int, period: int)
    requires Inv(s)
    ensures var s', id := AddStep(s, when, period), NewId(s);
            |s'.events| == |s'.owner| > id && OwnerOk(s', id) && PendingOk(s', TimeEvent(when, id))
  {
    AddedIdIsFree(s);
    NewTimerIsUntouched(s);
    FireCountAppend(s.log, Added(NewId(s), when, period), |s.log|);
    assert 0 * period == 0;
  }

  lemma AddKeepsQueue(s: State, when: int, period: int)
    requires Inv(s)
    ensures var s' := AddStep(s, when, period); Sorted(s'.timeEvents) && LogOk(s'.log) && PendingsOk(s')
  {
    var s', id := AddStep(s, when, period), NewId(s);
    var te := TimeEvent(when, id);
    AddedIdIsFree(s);
    AddKeepsNew(s, when, period);
    LogAppend(s.log, Added(id, when, period));
    InsertMembers(te, s.timeEvents);
    InsertSorted(te, s.timeEvents);
    forall x | x in s'.timeEvents ensures PendingOk(s', x) {
      if x != te {
        assert PendingOk(s, x);
        RefInPlaces(s, x);
        AddKeepsOthers(s, when, period, x.ref);
      }
    }
  }

  lemma AddKeepsInv(s: State, when: int, period: int)
    requires Inv(s)
    ensures Inv(AddStep(s, when, period))
  {
    var s', id := AddStep(s, when, period), NewId(s);
    AddKeepsQueue(s, when, period);
    AddedIdIsFree(s);
    AddPartition(s, when, period);
    AddKeepsNew(s, when, period);
    hide OwnerOk, PendingOk, AddStep;
    forall i | 0 <= i < |s'.owner| ensures OwnerOk(s', i) {
      if i != id { AddKeepsOthers(s, when, period, i); }
    }
    AddKeepsFlight(s, when, period);
  }

  lemma AddKeepsFlight(s: State, when: int, period: int)
    requires Inv(s)
    ensures var s' := AddStep(s, when, period); FlightOk(s') && SleepOk(s') && |s'.owner| <= |s.owner| + 1
  {
    hide LogOk, PendingsOk, IdsPartitioned, Sorted, Insert;
    AddedIdIsFree(s);
    if s.worker.Firing? {
      AddKeepsOthers(s, when, period, s.worker.te.ref);
    }
  }

  lemma PopTop(list: seq<nat>)
    requires list != []
    ensures multiset(list) == multiset(list[..|list| - 1]) + multiset{list[|list| - 1]}
  {
    assert list == list[..|list| - 1] + [list[|list| - 1]];
  }

  lemma AddPlaces(s: State, when: int, period: int)
    requires NewId(s) < |s.events| || s.freeIds == []
    requires |s.events| == |s.owner|
    ensures Places(AddStep(s, when, period)) ==
            if s.freeIds == [] then Places(s) + multiset{NewId(s)} else Places(s)
  {
    hide Insert, Refs;
    InsertRefs(TimeEvent(when, NewId(s)), s.timeEvents);
    if s.freeIds != [] {
      PopTop(s.freeIds);
      var rest, pending := multiset(s.freeIds[..|s.freeIds| - 1]), multiset(Refs(s.timeEvents));
      assert rest + (pending + multiset{NewId(s)}) == (rest + multiset{NewId(s)}) + pending;
    }
  }

  lemma AddPartition(s: State, when: int, period: int)
    requires IdsPartitioned(s) && |s.events| == |s.owner|
    requires if s.freeIds == [] then NewId(s) == |s.events| else NewId(s) < |s.events|
    ensures IdsPartitioned(AddStep(s, when, period))
  {
    hide Insert, Places;
    AddPlaces(s, when, period);
    var s' := AddStep(s, when, period);
    assert |s'.events| == if s.freeIds == [] then |s.events| + 1 else |s.events|;
    hide AddStep;
    forall id: nat ensures Places(s')[id] == if id < |s'.events| then 1 else 0 {
      assert Places(s)[id] == if id < |s.events| then 1 else 0;
    }
  }

  lemma RemoveKeepsOthers(s: State, id: nat, j: nat)
    requires Inv(s) && id < |s.events| && j < |s.events|
    ensures var s' := RemoveStep(s, id);
            && |s'.events| == |s'.owner| == |s.events| && s'.owner == s.owner
            && OwnerOk(s', j) && (j != id ==> s'.events[j] == s.events[j])
            && FireCount(s'.log, s.owner[j]) == FireCount(s.log, s.owner[j])
  {
    var e := Removed(s.owner[id]);
    FireCountAppend(s.log, e, s.owner[j]);
    assert OwnerOk(s, j) && OwnerOk(s, id);
    if j != id {
      OwnersDiffer(s, id, j);
      OwnerKept(s, RemoveStep(s, id), j, e);
    }
  }

  lemma RemoveKeepsQueue(s: State, id: nat)
    requires Inv(s) && id < |s.events|
    ensures var s' := RemoveStep(s, id); Sorted(s'.timeEvents) && LogOk(s'.log) && IdsPartitioned(s')
  {
    var s' := RemoveStep(s, id);
    var i := FindRef(s.timeEvents, id);
    assert OwnerOk(s, id);
    LogAppend(s.log, Removed(s.owner[id]));
    if i < |s.timeEvents| {
      EraseKeeps(s.timeEvents, i);
    }
    assert Places(s') == Places(s);
  }

  lemma RemoveKeepsOwners(s: State, id: nat)
    requires Inv(s) && id < |s.events|
    ensures OwnersOk(RemoveStep(s, id))
  {
    var s' := RemoveStep(s, id);
    RemoveKeepsOthers(s, id, id);
    hide LogOk, IdsPartitioned, PendingsOk, Sorted, OwnerOk, RemoveStep;
    forall j | 0 <= j < |s'.owner| ensures OwnerOk(s', j) {
      RemoveKeepsOthers(s, id, j);
    }
  }

  lemma RemoveKeepsFlight(s: State, id: nat)
    requires Inv(s) && id < |s.events|
    ensures FlightOk(RemoveStep(s, id))
  {
    RemoveKeepsOthers(s, id, id);
    if s.worker.Firing? {
      RemoveKeepsOthers(s, id, s.worker.te.ref);
      hide LogOk, IdsPartitioned, PendingsOk, Sorted;
    }
  }

  lemma RemoveKeepsPendings(s: State, id: nat)
    requires Inv(s) && id < |s.events|
    ensures PendingsOk(RemoveStep(s, id))
  {
    var s' := RemoveStep(s, id);
    RemoveKeepsOthers(s, id, id);
    forall x | x in s'.timeEvents ensures PendingOk(s', x) {
      RemovedIsNotPending(s, id, x);
      assert PendingOk(s, x);
      RemoveKeepsOthers(s, id, x.ref);
    }
  }

  lemma RemoveKeepsInv(s: State, id: nat)
    requires Inv(s)
    ensures Inv(RemoveStep(s, id))
  {
    if id < |s.events| {
      RemoveKeepsQueue(s, id);
      RemoveKeepsOwners(s, id);
      RemoveKeepsFlight(s, id);
      RemoveKeepsPendings(s, id);
      hide LogOk, IdsPartitioned, PendingsOk, OwnersOk, FlightOk, Sorted;
    }
  }

  lemma RemovedIsNotPending(s: State, id: nat, x: TimeEvent)
    requires Inv(s) && id < |s.events| && x in RemoveStep(s, id).timeEvents
    ensures x in s.timeEvents && x.ref != id
  {
    var i := FindRef(s.timeEvents, id);
    var s' := RemoveStep(s, id);
    RefInPlaces(s', x);
    if i < |s.timeEvents| {
      EraseKeeps(s.timeEvents, i);
      assert multiset(Refs(s.timeEvents))[id] == multiset(Refs(s'.timeEvents))[id] + 1;
      assert Places(s)[id] <= 1;
    } else {
      FindRefAbsent(s.timeEvents, id);
    }
  }

  lemma FireKeepsOthers(s: State, te: TimeEvent, s': State, now: int, j: nat)
    requires Inv(s) && te in s.timeEvents && te.ref < |s.owner| && j < |s.events|
    requires s'.events == s.events && s'.owner == s.owner
    requires s'.log == s.log + [Fired(s.owner[te.ref], te.next, now)]
    ensures OwnerOk(s', j)
    ensures FireCount(s'.log, s.owner[j]) == FireCount(s.log, s.owner[j]) + if j == te.ref then 1 else 0
  {
    assert OwnerOk(s, j) && OwnerOk(s, te.ref);
    if j != te.ref { OwnersDiffer(s, te.ref, j); }
    OwnerKept(s, s', j, Fired(s.owner[te.ref], te.next, now));
  }

  lemma FireKeepsLog(s: State, now: int)
    requires Inv(s) && s.timeEvents != [] && s.timeEvents[0].next <= now
    ensures s.timeEvents[0].ref < |s.owner|
    ensures LogOk(s.log + [Fired(s.owner[s.timeEvents[0].ref], s.timeEvents[0].next, now)])
  {
    var te := s.timeEvents[0];
    assert PendingOk(s, te);
    var e := Fired(s.owner[te.ref], te.next, now);
    assert (s.log + [e])[..|s.log|] == s.log;
    LogAppend(s.log, e);
  }

  lemma FireKeepsPartition(s: State, now: int)
    requires Inv(s) && s.worker.LoopHead? && !s.done && s.timeEvents != [] && s.timeEvents[0].next <= now
    ensures var s' := WorkerTurnStep(s, now);
            && IdsPartitioned(s') && Sorted(s'.timeEvents)
            && forall x :: x in s'.timeEvents ==> x in s.timeEvents && x.ref != s.timeEvents[0].ref
  {
    var s', te := WorkerTurnStep(s, now), s.timeEvents[0];
    assert PendingOk(s, te);
    assert s.timeEvents == [te] + s'.timeEvents;
    RefsCons(te, s'.timeEvents);
    assert Places(s') == Places(s);
    hide LogOk, OwnersOk, PendingsOk, PendingOk, FlightOk;
    forall x | x in s'.timeEvents ensures x.ref != te.ref {
      RefInPlaces(s', x);
      assert Places(s')[te.ref] == 1;
    }
  }

  lemma FireKeepsOwners(s: State, now: int)
    requires Inv(s) && s.worker.LoopHead? && !s.done && s.timeEvents != [] && s.timeEvents[0].next <= now
    ensures OwnersOk(WorkerTurnStep(s, now)) && FlightOk(WorkerTurnStep(s, now))
  {
    var s', te := WorkerTurnStep(s, now), s.timeEvents[0];
    assert PendingOk(s, te);
    forall j | 0 <= j < |s'.owner| ensures OwnerOk(s', j) {
      FireKeepsOthers(s, te, s', now, j);
    }
    FireKeepsOthers(s, te, s', now, te.ref);
  }

  lemma PendingStays(s: State, te: TimeEvent, s': State, now: int, x: TimeEvent)
    requires Inv(s) && te in s.timeEvents && x in s.timeEvents && x.ref != te.ref && te.ref < |s.owner|
    requires s'.events == s.events && s'.owner == s.owner
    requires s'.log == s.log + [Fired(s.owner[te.ref], te.next, now)]
    ensures PendingOk(s', x)
  {
    assert PendingOk(s, x);
    FireKeepsOthers(s, te, s', now, x.ref);
    assert OwnerOk(s, x.ref);
    assert s'.log[s.owner[x.ref]] == s.log[s.owner[x.ref]];
    hide LogOk, IdsPartitioned, OwnersOk, PendingsOk, Sorted, FlightOk, OwnerOk;
  }

  lemma FireKeepsPendings(s: State, now: int)
    requires Inv(s) && s.worker.LoopHead? && !s.done && s.timeEvents != [] && s.timeEvents[0].next <= now
    ensures PendingsOk(WorkerTurnStep(s, now))
  {
    var s', te := WorkerTurnStep(s, now), s.timeEvents[0];
    FireKeepsLog(s, now);
    FireKeepsPartition(s, now);
    assert |s'.events| == |s'.owner|;
    hide Inv, LogOk, IdsPartitioned, Sorted, PendingOk;
    forall x | x in s'.timeEvents ensures PendingOk(s', x) {
      PendingStays(s, te, s', now, x);
    }
  }

  lemma FireKeepsInv(s: State, now: int)
    requires Inv(s) && s.worker.LoopHead? && !s.done && s.timeEvents != [] && s.timeEvents[0].next <= now
    ensures Inv(WorkerTurnStep(s, now))
  {
    FireKeepsLog(s, now);
    FireKeepsPartition(s, now);
    FireKeepsOwners(s, now);
    FireKeepsPendings(s, now);
    hide LogOk, IdsPartitioned, Sorted, FlightOk, OwnersOk, PendingsOk;
  }

  lemma OnePeriodLater(k: int, period: int)
    ensures (k - 1) * period + period == k * period
  {}

  lemma RescheduledIsOk(s: State)
    requires Inv(s) && s.worker.Firing?
    requires s.events[s.worker.te.ref].valid && s.events[s.worker.te.ref].period > 0
    ensures var te := s.worker.te; PendingOk(s, te.(next := te.next + s.events[te.ref].period))
  {
    var te := s.worker.te;
    hide LogOk, IdsPartitioned, OwnersOk, PendingsOk, Sorted;
    OnePeriodLater(FireCount(s.log, s.owner[te.ref]), s.events[te.ref].period);
  }

  lemma RescheduleKeepsPlaces(s: State)
    requires Inv(s) && s.worker.Firing?
    requires s.events[s.worker.te.ref].valid && s.events[s.worker.te.ref].period > 0
    ensures var s', te := FinishFiringStep(s), s.worker.te;
            && IdsPartitioned(s') && Sorted(s'.timeEvents)
            && forall x :: x in s'.timeEvents ==>
                 x == te.(next := te.next + s.events[te.ref].period) || x in s.timeEvents
  {
    var s', te := FinishFiringStep(s), s.worker.te;
    var te' := te.(next := te.next + s.events[te.ref].period);
    hide LogOk, OwnersOk, PendingsOk, Insert, Sorted, Refs;
    InsertRefs(te', s.timeEvents);
    InsertMembers(te', s.timeEvents);
    InsertSorted(te', s.timeEvents);
    assert Places(s') == Places(s);
  }

  lemma FinishReschedules(s: State)
    requires Inv(s) && s.worker.Firing?
    requires s.events[s.worker.te.ref].valid && s.events[s.worker.te.ref].period > 0
    ensures Inv(FinishFiringStep(s))
  {
    var s', te := FinishFiringStep(s), s.worker.te;
    RescheduledIsOk(s);
    RescheduleKeepsPlaces(s);
    hide LogOk, DueAfter, OwnerOk, PendingOk, Insert, Sorted, IdsPartitioned;
    forall x | x in s'.timeEvents ensures PendingOk(s', x) {
      SameRecords(s, s', x);
    }
    forall j | 0 <= j < |s'.owner| ensures OwnerOk(s', j) {
      SameRecords(s, s', TimeEvent(0, j));
    }
  }

  lemma SameRecords(s: State, s': State, x: TimeEvent)
    requires |s.events| == |s.owner| && s'.events == s.events && s'.owner == s.owner && s'.log == s.log
    ensures PendingOk(s, x) ==> PendingOk(s', x)
    ensures x.ref < |s.events| && OwnerOk(s, x.ref) ==> OwnerOk(s', x.ref)
  {}

  lemma FreeKeepsPlaces(s: State)
    requires Inv(s) && s.worker.Firing?
    requires !s.events[s.worker.te.ref].valid || s.events[s.worker.te.ref].period <= 0
    ensures IdsPartitioned(FinishFiringStep(s))
    ensures forall x :: x in s.timeEvents ==> x.ref != s.worker.te.ref
  {
    var s', te := FinishFiringStep(s), s.worker.te;
    hide LogOk, OwnersOk, PendingsOk, Sorted, Refs;
    assert Places(s') == Places(s);
    forall x | x in s.timeEvents ensures x.ref != te.ref {
      RefInPlaces(s, x);
      assert Places(s)[te.ref] == 1;
    }
  }

  /** The record of a freed id is no longer valid; nothing else changes. */
  lemma OtherRecords(s: State, s': State, id: nat, x: TimeEvent)
    requires |s.events| == |s.owner| && id < |s.events| && s'.owner == s.owner && s'.log == s.log
    requires s'.events == s.events[id := s.events[id].(valid := false)]
    ensures PendingOk(s, x) && x.ref != id ==> PendingOk(s', x)
    ensures x.ref < |s.events| && OwnerOk(s, x.ref) ==> OwnerOk(s', x.ref)
  {}

  lemma FinishFreesId(s: State)
    requires Inv(s) && s.worker.Firing?
    requires !s.events[s.worker.te.ref].valid || s.events[s.worker.te.ref].period <= 0
    ensures Inv(FinishFiringStep(s))
  {
    var s', te := FinishFiringStep(s), s.worker.te;
    FreeKeepsPlaces(s);
    hide LogOk, DueAfter, OwnerOk, PendingOk, Sorted, IdsPartitioned;
    forall j | 0 <= j < |s'.owner| ensures OwnerOk(s', j) {
      OtherRecords(s, s', te.ref, TimeEvent(0, j));
    }
    forall x | x in s'.timeEvents ensures PendingOk(s', x) {
      OtherRecords(s, s', te.ref, x);
    }
  }

  lemma ApplyKeepsInv(s: State, a: Action)
    requires Inv(s)
    ensures Inv(Apply(s, a))
  {
    match a
    case Add(when, period) => AddKeepsInv(s, when, period);
    case Remove(id) => RemoveKeepsInv(s, id);
    case WorkerTurn(now) =>
      if s.worker.LoopHead? && !s.done && s.timeEvents != [] && s.timeEvents[0].next <= now {
        FireKeepsInv(s, now);
      } else {
        SameQueues(s, WorkerTurnStep(s, now));
      }
    case FinishFiring =>
      if s.worker.Firing? {
        var data := s.events[s.worker.te.ref];
        if data.valid && data.period > 0 { FinishReschedules(s); } else { FinishFreesId(s); }
      }
    case Destroy => SameQueues(s, DestroyStep(s));
    case Notify => SameQueues(s, NotifyStep(s));
    case Wake => SameQueues(s, Apply(s, Wake));
  }

  /** Steps that only move the worker, the done flag or the notification count. */
  lemma SameQueues(s: State, s': State)
    requires Inv(s) && SleepOk(s')
    requires s'.(done := s.done, worker := s.worker, notifies := s.notifies) == s
    requires s'.worker == s.worker || (!s.worker.Firing? && !s'.worker.Firing?)
    ensures Inv(s')
  {
    assert Places(s') == Places(s);
    forall id | 0 <= id < |s'.owner| ensures OwnerOk(s', id) {
      assert OwnerOk(s, id);
    }
    forall te | te in s'.timeEvents ensures PendingOk(s', te) {
      assert PendingOk(s, te);
    }
  }

  /** The invariant holds after every run, whatever the interleaving. */
  lemma {:induction false} InvAfterEveryRun(run: seq<Action>)
    ensures Inv(After(run))
  {
    if run != [] {
      InvAfterEveryRun(run[..|run| - 1]);
      ApplyKeepsInv(After(run[..|run| - 1]), run[|run| - 1]);
    }
  }

  // ----- what the invariant means for callers -----

  /** Every id handed out is free, pending or in flight: in one of the three, and there once. */
  lemma EveryIdInOnePlace(run: seq<Action>, id: nat)
    ensures var s := After(run);
            var free, pending := multiset(s.freeIds)[id], multiset(Refs(s.timeEvents))[id];
            free + pending + InFlight(s.worker)[id] == if id < |s.events| then 1 else 0
  {
    InvAfterEveryRun(run);
    assert Places(After(run))[id] == if id < |After(run).events| then 1 else 0;
  }

  /** add never hands out the id of a timer that is pending or whose handler runs. */
  lemma AddReturnsUnusedId(run: seq<Action>)
    ensures var s := After(run);
            && NewId(s) !in multiset(Refs(s.timeEvents))
            && (s.worker.Firing? ==> s.worker.te.ref != NewId(s))
            && NewId(s) <= |s.events|
  {
    InvAfterEveryRun(run);
    AddedIdIsFree(After(run));
  }

  /** What fires is due, and nothing pending is due earlier. */
  lemma FiredIsEarliest(run: seq<Action>, now: int)
    ensures var s, s' := After(run), After(run + [WorkerTurn(now)]);
            s'.worker.Firing? && s.worker.LoopHead? ==>
              && s'.worker.te.next <= now
              && forall te :: te in s.timeEvents ==> s'.worker.te.next <= te.next
  {
    InvAfterEveryRun(run);
    assert (run + [WorkerTurn(now)])[..|run|] == run;
  }

  /**
   * In every run a timer's firing number k (from 0) is scheduled at when + k * period,
   * starts no earlier, and does not start after the timer was removed.
   */
  lemma FiringsFollowSchedule(run: seq<Action>)
    ensures forall i :: 0 <= i < |After(run).log| && After(run).log[i].Fired? ==> FollowsSchedule(After(run).log, i)
  {
    InvAfterEveryRun(run);
    var log := After(run).log;
    assert LogOk(log);
    hide After, Inv;
    forall i | 0 <= i < |log| && log[i].Fired? ensures FollowsSchedule(log, i) {
      assert FiringOk(log, i);
      forall j | 0 <= j < i ensures log[j] != Removed(log[i].timer) {
        assert log[..i][j] == log[j];
      }
    }
  }

  /** The firing at position i of the history is on time, and its timer had not been removed. */
  ghost predicate FollowsSchedule(log: seq<Entry>, i: nat)
    requires i < |log| && log[i].Fired?
  {
    var t := log[i].timer;
    && t < i && log[t].Added?
    && log[i].scheduled == log[t].when + FireCount(log[..i], t) * log[t].period
    && log[i].scheduled <= log[i].now
    && forall j :: 0 <= j < i ==> log[j] != Removed(t)
  }

  lemma {:induction false} LastFiring(log: seq<Entry>, t: nat)
    requires FireCount(log, t) > 0
    ensures exists i :: 0 <= i < |log| && log[i].Fired? && log[i].timer == t
                        && FireCount(log[..i], t) == FireCount(log, t) - 1
  {
    var n := |log| - 1;
    if log[n].Fired? && log[n].timer == t {
      assert FireCount(log[..n], t) == FireCount(log, t) - 1;
    } else {
      LastFiring(log[..n], t);
      var i :| 0 <= i < n && log[..n][i].Fired? && log[..n][i].timer == t
               && FireCount(log[..n][..i], t) == FireCount(log[..n], t) - 1;
      assert log[..n][..i] == log[..i];
    }
  }

  /** A timer without a positive period fires at most once, in every run. */
  lemma OneShotFiresAtMostOnce(run: seq<Action>, t: nat)
    ensures var log := After(run).log;
            t < |log| && log[t].Added? && log[t].period <= 0 ==> FireCount(log, t) <= 1
  {
    InvAfterEveryRun(run);
    var log := After(run).log;
    if t < |log| && log[t].Added? && log[t].period <= 0 && FireCount(log, t) > 1 {
      LastFiring(log, t);
    }
  }

  /** A worker that sleeps while no notification is owed to it has nothing due before it wakes. */
  lemma NoLostWakeUp(run: seq<Action>)
    ensures var s := After(run);
            s.notifies == 0 ==>
              && (s.worker.Waiting? ==> s.timeEvents == [] && !s.done)
              && (s.worker.WaitingUntil? ==>
                    !s.done && forall te :: te in s.timeEvents ==> s.worker.time <= te.next)
  {
    InvAfterEveryRun(run);
  }
}
