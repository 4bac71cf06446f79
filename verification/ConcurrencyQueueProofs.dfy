/**
 * What holds of every run of the request scheduler, whatever the order and timing of events.
 */
module ConcurrencyQueueProofs {
  import opened Common
  import opened ConcurrencyQueue

  // ---------------------------------------------------------------------------
  // Conservation: queued, active or settled
  // ---------------------------------------------------------------------------

  function SettledIds(settlements: seq<Settlement>): seq<Id> {
    seq(|settlements|, i requires 0 <= i < |settlements| => settlements[i].id)
  }

  /** The ids that left the queue without being started. */
  function Dropped(settlements: seq<Settlement>): set<Id> {
    set x | x in settlements && (x.outcome == TimedOut || x.outcome == Cancelled) :: x.id
  }

  /** A sequence without the given ids, order kept. */
  function Without(ids: seq<Id>, gone: set<Id>): seq<Id> {
    if ids == [] then []
    else (if ids[0] in gone then [] else [ids[0]]) + Without(ids[1..], gone)
  }

  /** Every submitted request is counted exactly once among queued, active and settled, and no request was
      submitted twice; so the three are disjoint and no promise is settled twice. */
  ghost predicate Conserved(s: State) {
    && (forall id :: multiset(s.submitted)[id] <= 1)
    && multiset(s.submitted) == multiset(s.queue) + s.active + multiset(SettledIds(s.settlements))
  }

  ghost predicate Capped(c: Config, s: State) {
    && s.activeRequests == |s.active|
    && (s.activeRequests <= c.maxConcurrentRequests || s.activeRequests == 0)
  }

  /** Exactly the queued requests have a running queue timeout, if timeouts are on. */
  ghost predicate TimeoutsArmed(c: Config, s: State) {
    forall id :: id in s.armed <==> c.queueTimeout != 0 && id in s.queue
  }

  /** Starts happen in submission order: what was started, followed by what still waits, is what was submitted
      minus the requests that timed out or were cancelled. */
  ghost predicate Fifo(s: State) {
    s.started + s.queue == Without(s.submitted, Dropped(s.settlements))
  }

  ghost predicate Invariant(c: Config, s: State) {
    Conserved(s) && Capped(c, s) && TimeoutsArmed(c, s) && Fifo(s)
  }

  // Multisets and filters

  lemma SettledOne(settlements: seq<Settlement>, x: Settlement)
    ensures SettledIds(settlements + [x]) == SettledIds(settlements) + [x.id]
    ensures Dropped(settlements + [x])
         == Dropped(settlements) + if x.outcome == TimedOut || x.outcome == Cancelled then {x.id} else {}
  {
  }

  lemma {:induction false} WithoutConcat(a: seq<Id>, b: seq<Id>, gone: set<Id>)
    ensures Without(a + b, gone) == Without(a, gone) + Without(b, gone)
  {
    if a == [] {
      assert a + b == b;
    } else {
      WithoutConcat(a[1..], b, gone);
      assert (a + b)[1..] == a[1..] + b;
      Assoc(if a[0] in gone then [] else [a[0]], Without(a[1..], gone), Without(b, gone));
    }
  }

  lemma {:induction false} WithoutAbsent(ids: seq<Id>, gone: set<Id>)
    requires forall id :: id in ids ==> id !in gone
    ensures Without(ids, gone) == ids
  {
    if ids == [] {
    } else {
      WithoutAbsent(ids[1..], gone);
    }
  }

  lemma {:induction false} WithoutAll(ids: seq<Id>, gone: set<Id>)
    requires forall id :: id in ids ==> id in gone
    ensures Without(ids, gone) == []
  {
    if ids == [] {
    } else {
      WithoutAll(ids[1..], gone);
    }
  }

  lemma {:induction false} WithoutTwice(ids: seq<Id>, a: set<Id>, b: set<Id>)
    ensures Without(ids, a + b) == Without(Without(ids, a), b)
  {
    if ids == [] {
    } else {
      WithoutTwice(ids[1..], a, b);
      if ids[0] in a {
        assert [] + Without(ids[1..], a) == Without(ids[1..], a);
      } else {
        assert ([ids[0]] + Without(ids[1..], a))[1..] == Without(ids[1..], a);
      }
    }
  }

  lemma {:induction false} WithoutMembers(ids: seq<Id>, gone: set<Id>)
    ensures multiset(Without(ids, gone)) <= multiset(ids)
  {
    if ids == [] {
    } else {
      WithoutMembers(ids[1..], gone);
      assert ids == [ids[0]] + ids[1..];
    }
  }

  lemma {:induction false} RemoveCounts(queue: seq<Id>, id: Id)
    requires id in queue
    ensures multiset(Remove(queue, id)) == multiset(queue) - multiset{id}
  {
    var tail := queue[1..];
    assert queue == [queue[0]] + tail;
    if queue[0] != id {
      RemoveCounts(tail, id);
    }
  }

  /** Removing a queued request is filtering it out, since it is queued once. */
  lemma {:induction false} RemoveIsFilter(queue: seq<Id>, id: Id)
    requires multiset(queue)[id] == 1
    ensures Remove(queue, id) == Without(queue, {id})
  {
    var tail := queue[1..];
    assert multiset(queue) == multiset{queue[0]} + multiset(tail) by {
      assert queue == [queue[0]] + tail;
    }
    if queue[0] == id {
      assert id !in multiset(tail);
      WithoutAbsent(tail, {id});
    } else {
      RemoveIsFilter(tail, id);
    }
  }

  /** In a conserved state started and queued requests are all different. */
  lemma StartedAndQueuedOnce(s: State, id: Id)
    requires Conserved(s) && Fifo(s) && id in s.queue
    ensures id !in s.started && multiset(s.queue)[id] == 1
  {
    WithoutMembers(s.submitted, Dropped(s.settlements));
    assert multiset(s.started + s.queue)[id] <= 1;
  }

  // ---------------------------------------------------------------------------
  // Every handler keeps the invariant
  // ---------------------------------------------------------------------------

  lemma StartKeeps(c: Config, s: State)
    requires Invariant(c, s) && s.queue != [] && s.activeRequests < c.maxConcurrentRequests
    ensures Invariant(c, Start(s))
  {
    var id, rest := s.queue[0], s.queue[1..];
    assert s.queue == [id] + rest;
    StartedAndQueuedOnce(s, id);
    assert (s.started + [id]) + rest == s.started + s.queue;
  }

  lemma RunningSettles(settlements: seq<Settlement>, x: Settlement)
    requires x.outcome == Resolved || x.outcome == Rejected
    ensures SettledIds(settlements + [x]) == SettledIds(settlements) + [x.id]
    ensures Dropped(settlements + [x]) == Dropped(settlements)
  {
  }

  lemma FinishKeeps(c: Config, s: State, id: Id, ok: bool)
    requires Invariant(c, s) && id in s.active
    ensures Invariant(c, Finish(s, id, ok))
  {
    RunningSettles(s.settlements, Settlement(id, if ok then Resolved else Rejected));
    assert s.active == (s.active - multiset{id}) + multiset{id};
  }

  lemma {:induction false} ProcessKeeps(c: Config, s: State, now: int)
    requires Invariant(c, s)
    ensures Invariant(c, ProcessQueue(c, s, now))
    decreases |s.queue|, 1
  {
    var s' := if c.enableThrottling then IsThrottled(c, s, now).1 else s;
    if !c.enableThrottling || !IsThrottled(c, s, now).0 {
      DrainKeeps(c, s', now);
    }
  }

  lemma {:induction false} DrainKeeps(c: Config, s: State, now: int)
    requires Invariant(c, s)
    ensures Invariant(c, Drain(c, s, now))
    decreases |s.queue|, 0
  {
    if s.activeRequests < c.maxConcurrentRequests && s.queue != [] {
      var id, s' := s.queue[0], Start(s);
      StartKeeps(c, s);
      if c.throwsSync(id) {
        FinishKeeps(c, s', id, false);
        ProcessKeeps(c, Finish(s', id, false), now);
        DrainKeeps(c, ProcessQueue(c, Finish(s', id, false), now), now);
      } else {
        DrainKeeps(c, s', now);
      }
    }
  }

  lemma SubmitKeeps(c: Config, s: State, id: Id, now: int)
    requires Invariant(c, s) && Enabled(s, Submit(id, now))
    ensures Invariant(c, Step(c, s, Submit(id, now)))
  {
    var s' := s.(queue := s.queue + [id], submitted := s.submitted + [id],
                 armed := if c.queueTimeout != 0 then s.armed + {id} else s.armed);
    assert id !in s.submitted;
    if id in Dropped(s.settlements) {
      DroppedWereSubmitted(s, id);
    }
    WithoutConcat(s.submitted, [id], Dropped(s.settlements));
    WithoutAbsent([id], Dropped(s.settlements));
    assert s.started + (s.queue + [id]) == (s.started + s.queue) + [id];
    ProcessKeeps(c, s', now);
  }

  lemma DroppedWereSubmitted(s: State, id: Id)
    requires Conserved(s) && id in Dropped(s.settlements)
    ensures id in s.submitted
  {
    var x :| x in s.settlements && x.id == id;
    var i :| 0 <= i < |s.settlements| && s.settlements[i] == x;
    assert SettledIds(s.settlements)[i] == id;
    assert id in multiset(SettledIds(s.settlements));
    assert multiset(s.submitted)[id] >= 1;
  }

  /** Taking the ids in `gone` out of the queue, unstarted, keeps the start order right. */
  lemma FifoDrop(s: State, gone: set<Id>)
    requires Fifo(s) && forall id :: id in s.started ==> id !in gone
    ensures s.started + Without(s.queue, gone) == Without(s.submitted, Dropped(s.settlements) + gone)
  {
    WithoutTwice(s.submitted, Dropped(s.settlements), gone);
    WithoutConcat(s.started, s.queue, gone);
    WithoutAbsent(s.started, gone);
  }

  lemma TimeoutKeeps(c: Config, s: State, id: Id)
    requires Invariant(c, s) && Enabled(s, QueueTimeout(id))
    ensures Invariant(c, Step(c, s, QueueTimeout(id)))
  {
    StartedAndQueuedOnce(s, id);
    RemoveIsFilter(s.queue, id);
    RemoveCounts(s.queue, id);
    SettledOne(s.settlements, Settlement(id, TimedOut));
    FifoDrop(s, {id});
    RemoveMembers(s.queue, id);
  }

  lemma RemoveMembers(queue: seq<Id>, id: Id)
    requires multiset(queue)[id] == 1
    ensures forall x :: x in Remove(queue, id) <==> x in queue && x != id
  {
    assert id in queue;
    RemoveCounts(queue, id);
    forall x ensures x in Remove(queue, id) <==> x in queue && x != id {
      assert x in Remove(queue, id) <==> x in multiset(Remove(queue, id));
      assert x in queue <==> x in multiset(queue);
    }
  }

  lemma CancelAllIds(settlements: seq<Settlement>, queue: seq<Id>)
    ensures SettledIds(settlements + CancelAll(queue)) == SettledIds(settlements) + queue
  {
  }

  lemma DroppedMany(settlements: seq<Settlement>, queue: seq<Id>)
    ensures Dropped(settlements + CancelAll(queue)) == Dropped(settlements) + set id | id in queue
  {
  }

  lemma ClearKeepsOrder(c: Config, s: State)
    requires Conserved(s) && Fifo(s)
    ensures Fifo(Step(c, s, Clear))
  {
    var all := set id | id in s.queue;
    DroppedMany(s.settlements, s.queue);
    forall id | id in s.started ensures id !in all {
      if id in s.queue {
        StartedAndQueuedOnce(s, id);
      }
    }
    FifoDrop(s, all);
    WithoutAll(s.queue, all);
  }

  lemma ClearConserves(c: Config, s: State)
    requires Conserved(s)
    ensures Conserved(Step(c, s, Clear))
  {
    CancelAllIds(s.settlements, s.queue);
  }

  lemma ClearKeeps(c: Config, s: State)
    requires Invariant(c, s)
    ensures Invariant(c, Step(c, s, Clear))
  {
    ClearConserves(c, s);
    ClearKeepsOrder(c, s);
  }

  lemma StepKeeps(c: Config, s: State, e: Event)
    requires Invariant(c, s) && Enabled(s, e)
    ensures Invariant(c, Step(c, s, e))
  {
    match e
    case Submit(id, now) => SubmitKeeps(c, s, id, now);
    case Complete(id, ok, now) =>
      FinishKeeps(c, s, id, ok);
      ProcessKeeps(c, Finish(s, id, ok), now);
    case QueueTimeout(id) => TimeoutKeeps(c, s, id);
    case TimerFires(now) => ProcessKeeps(c, s.(throttleTimer := None), now);
    case Clear => ClearKeeps(c, s);
    case ReadStatus(now) =>
  }

  // ---------------------------------------------------------------------------
  // No lost wakeups
  // ---------------------------------------------------------------------------

  /** Work that could start now is waiting for the throttle timer; without throttling there is no such work. */
  ghost predicate Awake(c: Config, s: State) {
    s.queue != [] && s.activeRequests < c.maxConcurrentRequests ==> c.enableThrottling && s.throttleTimer.Some?
  }

  lemma {:induction false} DrainIsExhaustive(c: Config, s: State, now: int)
    ensures var r := Drain(c, s, now); r.activeRequests >= c.maxConcurrentRequests || r.queue == []
    decreases |s.queue|
  {
    if s.activeRequests < c.maxConcurrentRequests && s.queue != [] {
      var id, s' := s.queue[0], Start(s);
      DrainIsExhaustive(c, if c.throwsSync(id) then ProcessQueue(c, Finish(s', id, false), now) else s', now);
    }
  }

  lemma ProcessWakes(c: Config, s: State, now: int)
    ensures Awake(c, ProcessQueue(c, s, now))
  {
    var s' := if c.enableThrottling then IsThrottled(c, s, now).1 else s;
    DrainIsExhaustive(c, s', now);
  }

  lemma {:induction false} RemoveShrinks(queue: seq<Id>, id: Id)
    ensures |Remove(queue, id)| <= |queue|
  {
    if queue == [] {
    } else {
      RemoveShrinks(queue[1..], id);
    }
  }

  lemma StepWakes(c: Config, s: State, e: Event)
    requires Awake(c, s)
    ensures Awake(c, Step(c, s, e))
  {
    match e
    case Submit(id, now) =>
      ProcessWakes(c, s.(queue := s.queue + [id], submitted := s.submitted + [id],
                         armed := if c.queueTimeout != 0 then s.armed + {id} else s.armed), now);
    case Complete(id, ok, now) => ProcessWakes(c, Finish(s, id, ok), now);
    case QueueTimeout(id) => RemoveShrinks(s.queue, id);
    case TimerFires(now) => ProcessWakes(c, s.(throttleTimer := None), now);
    case Clear =>
    case ReadStatus(now) =>
  }

  // ---------------------------------------------------------------------------
  // All runs
  // ---------------------------------------------------------------------------

  lemma {:induction false} RunKeeps(c: Config, s: State, events: seq<Event>)
    requires Invariant(c, s) && Awake(c, s) && Legal(c, s, events)
    ensures Invariant(c, After(c, s, events)) && Awake(c, After(c, s, events))
    decreases |events|
  {
    if events == [] {
    } else {
      StepKeeps(c, s, events[0]);
      StepWakes(c, s, events[0]);
      RunKeeps(c, Step(c, s, events[0]), events[1..]);
    }
  }

  /** In every reachable state: each submitted request is in exactly one of queued, active and settled, and settled
      at most once; the active count is right and within the cap; work is never forgotten; starts are in order. */
  lemma EveryRun(c: Config, start: int, events: seq<Event>)
    requires Legal(c, Init(start), events)
    ensures var s := After(c, Init(start), events);
            && (forall id :: multiset(s.queue)[id] + s.active[id] + multiset(SettledIds(s.settlements))[id]
                             == if id in s.submitted then 1 else 0)
            && s.activeRequests == |s.active|
            && (s.activeRequests <= c.maxConcurrentRequests || s.activeRequests == 0)
            && Awake(c, s)
            && s.started + s.queue == Without(s.submitted, Dropped(s.settlements))
  {
    RunKeeps(c, Init(start), events);
    var s := After(c, Init(start), events);
    forall id ensures multiset(s.submitted)[id] == if id in s.submitted then 1 else 0 {
      assert id in s.submitted <==> id in multiset(s.submitted);
    }
  }

  /** When the timer fires in an interval that is over, everything that fits is started. */
  lemma TimerDrains(c: Config, s: State, now: int)
    requires Enabled(s, TimerFires(now)) && IntervalOver(c, s, now)
    ensures var r := Step(c, s, TimerFires(now)); r.activeRequests >= c.maxConcurrentRequests || r.queue == []
  {
    var t := s.(throttleTimer := None);
    DrainIsExhaustive(c, IsThrottled(c, t, now).1, now);
    DrainIsExhaustive(c, t, now);
  }

  // ---------------------------------------------------------------------------
  // Wakeups come in time
  // ---------------------------------------------------------------------------

  /** A pending timer is due by the end of the current interval. */
  ghost predicate DueInTime(c: Config, s: State) {
    s.throttleTimer.Some? ==> s.throttleTimer.value <= s.lastThrottleReset + c.throttleInterval
  }

  /** No reset can move the start of the interval back: intervals are not negative, or the clock is not behind. */
  predicate Forward(c: Config, s: State, now: int) {
    c.throttleInterval >= 0 || s.lastThrottleReset <= now
  }

  lemma {:induction false} ProcessInTime(c: Config, s: State, now: int)
    requires DueInTime(c, s) && Forward(c, s, now)
    ensures DueInTime(c, ProcessQueue(c, s, now)) && Forward(c, ProcessQueue(c, s, now), now)
    decreases |s.queue|, 1
  {
    if !c.enableThrottling {
      DrainInTime(c, s, now);
    } else if !IsThrottled(c, s, now).0 {
      DrainInTime(c, IsThrottled(c, s, now).1, now);
    }
  }

  lemma {:induction false} DrainInTime(c: Config, s: State, now: int)
    requires DueInTime(c, s) && Forward(c, s, now)
    ensures DueInTime(c, Drain(c, s, now)) && Forward(c, Drain(c, s, now), now)
    decreases |s.queue|, 0
  {
    if s.activeRequests < c.maxConcurrentRequests && s.queue != [] {
      var id, s' := s.queue[0], Start(s);
      if c.throwsSync(id) {
        ProcessInTime(c, Finish(s', id, false), now);
        DrainInTime(c, ProcessQueue(c, Finish(s', id, false), now), now);
      } else {
        DrainInTime(c, s', now);
      }
    }
  }

  predicate EventForward(c: Config, s: State, e: Event) {
    e.QueueTimeout? || e.Clear? || Forward(c, s, e.now)
  }

  lemma StepInTime(c: Config, s: State, e: Event)
    requires DueInTime(c, s) && EventForward(c, s, e)
    ensures DueInTime(c, Step(c, s, e))
  {
    match e
    case Submit(id, now) =>
      ProcessInTime(c, s.(queue := s.queue + [id], submitted := s.submitted + [id],
                          armed := if c.queueTimeout != 0 then s.armed + {id} else s.armed), now);
    case Complete(id, ok, now) => ProcessInTime(c, Finish(s, id, ok), now);
    case QueueTimeout(id) =>
    case TimerFires(now) => ProcessInTime(c, s.(throttleTimer := None), now);
    case Clear =>
    case ReadStatus(now) =>
  }

  /** No event of the run has a clock reading before the start of the interval it falls into, which a clock that never
      runs back gives; intervals that are not negative need no such clock. */
  ghost predicate RunForward(c: Config, s: State, events: seq<Event>)
    decreases |events|
  {
    events == [] || (EventForward(c, s, events[0]) && RunForward(c, Step(c, s, events[0]), events[1..]))
  }

  lemma {:induction false} RunInTime(c: Config, s: State, events: seq<Event>)
    requires DueInTime(c, s) && RunForward(c, s, events)
    ensures DueInTime(c, After(c, s, events))
    decreases |events|
  {
    if events == [] {
    } else {
      StepInTime(c, s, events[0]);
      RunInTime(c, Step(c, s, events[0]), events[1..]);
    }
  }

  /** Clock readings that never go down, from `clock` on. */
  predicate Monotone(clock: int, events: seq<Event>)
    decreases |events|
  {
    events == [] ||
    if events[0].QueueTimeout? || events[0].Clear? then Monotone(clock, events[1..])
    else clock <= events[0].now && Monotone(events[0].now, events[1..])
  }

  lemma {:induction false} ProcessResets(c: Config, s: State, now: int)
    ensures ProcessQueue(c, s, now).lastThrottleReset in {s.lastThrottleReset, now}
    decreases |s.queue|, 1
  {
    if !c.enableThrottling {
      DrainResets(c, s, now);
    } else if !IsThrottled(c, s, now).0 {
      DrainResets(c, IsThrottled(c, s, now).1, now);
    }
  }

  lemma {:induction false} DrainResets(c: Config, s: State, now: int)
    ensures Drain(c, s, now).lastThrottleReset in {s.lastThrottleReset, now}
    decreases |s.queue|, 0
  {
    if s.activeRequests < c.maxConcurrentRequests && s.queue != [] {
      var id, s' := s.queue[0], Start(s);
      if c.throwsSync(id) {
        ProcessResets(c, Finish(s', id, false), now);
        DrainResets(c, ProcessQueue(c, Finish(s', id, false), now), now);
      } else {
        DrainResets(c, s', now);
      }
    }
  }

  lemma StepResets(c: Config, s: State, e: Event)
    ensures e.QueueTimeout? || e.Clear? ==> Step(c, s, e).lastThrottleReset == s.lastThrottleReset
    ensures !e.QueueTimeout? && !e.Clear? ==> Step(c, s, e).lastThrottleReset in {s.lastThrottleReset, e.now}
  {
    match e
    case Submit(id, now) =>
      ProcessResets(c, s.(queue := s.queue + [id], submitted := s.submitted + [id],
                          armed := if c.queueTimeout != 0 then s.armed + {id} else s.armed), now);
    case Complete(id, ok, now) => ProcessResets(c, Finish(s, id, ok), now);
    case QueueTimeout(id) =>
    case TimerFires(now) => ProcessResets(c, s.(throttleTimer := None), now);
    case Clear =>
    case ReadStatus(now) =>
  }

  lemma {:induction false} MonotoneIsForward(c: Config, s: State, clock: int, events: seq<Event>)
    requires c.throttleInterval >= 0 || (s.lastThrottleReset <= clock && Monotone(clock, events))
    ensures RunForward(c, s, events)
    decreases |events|
  {
    if events == [] {
    } else {
      var e := events[0];
      StepResets(c, s, e);
      MonotoneIsForward(c, Step(c, s, e), if e.QueueTimeout? || e.Clear? then clock else e.now, events[1..]);
    }
  }

  /** In every reachable state, requests that could start now are waiting for a timer that is due by the end of the
      current interval, under a clock that never runs back; for intervals that are not negative, under any clock. */
  lemma WaitsAtMostAnInterval(c: Config, start: int, events: seq<Event>)
    requires Legal(c, Init(start), events) && (c.throttleInterval >= 0 || Monotone(start, events))
    ensures var s := After(c, Init(start), events);
            s.queue != [] && s.activeRequests < c.maxConcurrentRequests ==>
              s.throttleTimer.Some? && s.throttleTimer.value <= s.lastThrottleReset + c.throttleInterval
  {
    RunKeeps(c, Init(start), events);
    MonotoneIsForward(c, Init(start), start, events);
    RunInTime(c, Init(start), events);
  }
}
