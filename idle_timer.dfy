/** `IdleTimer`: runs a callback once no activity has been seen for a timeout.
    The clock is not modelled: `async_call_later` schedules an alarm and returns
    the handle that cancels it; the alarm firing is the `Fire` step. */
module Timers {

  /** What `_unsub` holds: nothing, the cancel handle of a pending alarm, or the
      handle of an alarm that `clear()` has already cancelled. */
  datatype Handle = NoHandle | Armed(alarm: nat) | Cancelled(alarm: nat)

  /** The timer's fields, with the alarms scheduled so far and the callbacks run. */
  datatype TimerState = TimerState(idle: bool, unsub: Handle, scheduled: nat, callbacks: nat)

  const Initial := TimerState(false, NoHandle, 0, 0)

  /** An idle timer holds no handle; every handle names an alarm already scheduled;
      each callback used up an alarm that is no longer pending. */
  predicate Consistent(s: TimerState) {
    && (s.idle ==> s.unsub == NoHandle)
    && (!s.unsub.NoHandle? ==> s.unsub.alarm < s.scheduled)
    && s.callbacks + (if s.unsub.Armed? then 1 else 0) <= s.scheduled
  }

  /** `async_call_later(...)`: a new alarm, numbered by the count of alarms so far. */
  function Schedule(s: TimerState): (r: TimerState)
    ensures r.unsub == Armed(s.scheduled) && r.scheduled == s.scheduled + 1
    ensures r.idle == s.idle && r.callbacks == s.callbacks
  {
    s.(unsub := Armed(s.scheduled), scheduled := s.scheduled + 1)
  }

  /** `start()`: not idle; schedules an alarm only when `_unsub` is None. */
  function AfterStart(s: TimerState): TimerState {
    var s' := s.(idle := false);
    if s.unsub == NoHandle then Schedule(s') else s'
  }

  /** `clear()`: cancels the pending alarm, if any; `_unsub` keeps the handle. */
  function AfterClear(s: TimerState): TimerState {
    if s.unsub.Armed? then s.(unsub := Cancelled(s.unsub.alarm)) else s
  }

  /** `awake()`: not idle; cancels the pending alarm and schedules a new one. */
  function AfterAwake(s: TimerState): TimerState {
    Schedule(AfterClear(s.(idle := false)))
  }

  /** `fire(now)`: the pending alarm went off; idle, no handle, callback run. */
  function AfterFire(s: TimerState): TimerState
    requires s.unsub.Armed?
  {
    s.(idle := true, unsub := NoHandle, callbacks := s.callbacks + 1)
  }

  /** Every operation keeps the timer consistent. */
  lemma OperationsKeepConsistent(s: TimerState)
    requires Consistent(s)
    ensures Consistent(AfterStart(s)) && Consistent(AfterClear(s)) && Consistent(AfterAwake(s))
    ensures s.unsub.Armed? ==> Consistent(AfterFire(s))
  {
  }

  /** `start()` makes the timer active and leaves it with a pending alarm unless a
      handle is already held; it schedules nothing when one is. */
  lemma StartFacts(s: TimerState)
    ensures !AfterStart(s).idle && AfterStart(s).callbacks == s.callbacks
    ensures s.unsub == NoHandle <==> AfterStart(s).scheduled == s.scheduled + 1
    ensures s.unsub == NoHandle ==> AfterStart(s).unsub == Armed(s.scheduled)
    ensures s.unsub != NoHandle ==> AfterStart(s).unsub == s.unsub
  {
  }

  /** Starting twice is starting once. */
  lemma StartIdempotent(s: TimerState)
    ensures AfterStart(AfterStart(s)) == AfterStart(s)
  {
  }

  /** `awake()` postpones the timeout: the old alarm can no longer fire and exactly
      one new alarm is pending. */
  lemma AwakePostpones(s: TimerState)
    ensures AfterAwake(s).unsub == Armed(s.scheduled) && !AfterAwake(s).idle
    ensures AfterAwake(s).scheduled == s.scheduled + 1 && AfterAwake(s).callbacks == s.callbacks
  {
  }

  /** After `clear()` no alarm is pending, so the timer cannot fire; and because
      `_unsub` is not reset, a following `start()` does not schedule a new one. */
  lemma ClearDisarms(s: TimerState)
    ensures !AfterClear(s).unsub.Armed?
    ensures !AfterStart(AfterClear(s)).unsub.Armed? <==> s.unsub != NoHandle
  {
  }

  /** Once fired, the timer is idle until `start()` or `awake()`, and `start()`
      arms it again. */
  lemma FireThenStart(s: TimerState)
    requires s.unsub.Armed?
    ensures AfterFire(s).idle && AfterFire(s).unsub == NoHandle
    ensures !AfterStart(AfterFire(s)).idle && AfterStart(AfterFire(s)).unsub.Armed?
  {
  }

  /** The inputs the timer reacts to: calls from its owner, and a pending alarm going off. */
  datatype Event = StartEvent | AwakeEvent | ClearEvent | AlarmEvent

  /** One event; an alarm can only go off while one is pending. */
  function Step(s: TimerState, e: Event): TimerState {
    match e
    case StartEvent => AfterStart(s)
    case AwakeEvent => AfterAwake(s)
    case ClearEvent => AfterClear(s)
    case AlarmEvent => if s.unsub.Armed? then AfterFire(s) else s
  }

  function Run(s: TimerState, events: seq<Event>): TimerState {
    if |events| == 0 then s else Step(Run(s, events[..|events| - 1]), events[|events| - 1])
  }

  /** Whatever the order of calls and alarms, the timer stays consistent: in
      particular the callback has run at most once per alarm ever scheduled. */
  lemma {:induction false} RunKeepsConsistent(s: TimerState, events: seq<Event>)
    requires Consistent(s)
    ensures Consistent(Run(s, events))
    ensures Run(s, events).callbacks <= Run(s, events).scheduled
  {
    if |events| > 0 {
      RunKeepsConsistent(s, events[..|events| - 1]);
      OperationsKeepConsistent(Run(s, events[..|events| - 1]));
    }
  }

  class IdleTimer {
    const timeout: nat    // seconds; passed to the scheduler, not modelled
    var idle: bool
    var unsub: Handle
    var scheduled: nat
    var callbacks: nat

    function State(): TimerState
      reads this
    {
      TimerState(idle, unsub, scheduled, callbacks)
    }

    ghost predicate Valid()
      reads this
    {
      Consistent(State())
    }

    constructor(timeout: nat)
      ensures Valid() && State() == Initial && this.timeout == timeout
    {
      this.timeout := timeout;
      idle := false;
      unsub := NoHandle;
      scheduled := 0;
      callbacks := 0;
    }

    /** `async_call_later(hass, timeout, fire)` */
    method ScheduleAlarm()
      modifies this
      ensures State() == Schedule(old(State()))
    {
      unsub := Armed(scheduled);
      scheduled := scheduled + 1;
    }

    method Start()
      requires Valid()
      modifies this
      ensures Valid() && State() == AfterStart(old(State()))
    {
      idle := false;
      if unsub == NoHandle {
        ScheduleAlarm();
      }
    }

    method Awake()
      requires Valid()
      modifies this
      ensures Valid() && State() == AfterAwake(old(State()))
    {
      idle := false;
      Clear();
      ScheduleAlarm();
    }

    method Clear()
      requires Valid()
      modifies this
      ensures Valid() && State() == AfterClear(old(State()))
    {
      if unsub.Armed? {
        unsub := Cancelled(unsub.alarm);  // calling the handle cancels the alarm
      }
    }

    /** Called by the scheduler when the pending alarm goes off; the callback
        itself is outside the model and only counted. */
    method Fire()
      requires Valid() && unsub.Armed?
      modifies this
      ensures Valid() && State() == AfterFire(old(State()))
    {
      idle := true;
      unsub := NoHandle;
      callbacks := callbacks + 1;
    }
  }
}
