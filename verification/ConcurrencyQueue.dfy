/**
 * Request scheduler with a concurrency cap and an optional rate limit (src/utils/concurrencyQueue.ts).
 *
 * Each event handler runs to completion before the next one, so a run is a sequence of atomic events: a request is
 * submitted, a running request completes, a queue timeout or the throttle timer fires, the queue is cleared, or the
 * status is read. Clock readings come with the events.
 */
module ConcurrencyQueue {
  import opened Common

  type Id = nat

  /** `throwsSync` says which request functions throw before they return a promise. */
  datatype Config = Config(maxConcurrentRequests: int, queueTimeout: int, enableThrottling: bool,
                           throttleRate: int, throttleInterval: int, throwsSync: Id -> bool)

  datatype Outcome = Resolved | Rejected | TimedOut | Cancelled
  datatype Settlement = Settlement(id: Id, outcome: Outcome)

  /** The first six components are the queue's own fields (`armed` collects the timeoutIds that are set); the others
      record what callers observe: submissions, starts, how many of them came before the last reset of the rate limit,
      running requests and settled promises. */
  datatype State = State(activeRequests: int, queue: seq<Id>, throttleTimer: Option<int>,
                         requestsInCurrentInterval: int, lastThrottleReset: int, armed: set<Id>,
                         submitted: seq<Id>, started: seq<Id>, startedAtReset: nat, active: multiset<Id>,
                         settlements: seq<Settlement>)

  datatype Event =
    | Submit(id: Id, now: int)
    | Complete(id: Id, ok: bool, now: int)
    | QueueTimeout(id: Id)
    | TimerFires(now: int)
    | Clear
    | ReadStatus(now: int)

  function Init(now: int): State {
    State(0, [], None, 0, now, {}, [], [], 0, multiset{}, [])
  }

  // ---------------------------------------------------------------------------
  // The handlers
  // ---------------------------------------------------------------------------

  function Settle(s: State, id: Id, outcome: Outcome): State {
    s.(settlements := s.settlements + [Settlement(id, outcome)])
  }

  predicate IntervalOver(c: Config, s: State, now: int) {
    now - s.lastThrottleReset >= c.throttleInterval
  }

  /** `isThrottled`: its answer, and its side effect of starting a new interval. */
  function IsThrottled(c: Config, s: State, now: int): (bool, State) {
    if IntervalOver(c, s, now) then (false, s.(requestsInCurrentInterval := 0, lastThrottleReset := now, startedAtReset := |s.started|))
    else (s.requestsInCurrentInterval >= c.throttleRate, s)
  }

  function ScheduleNextProcess(c: Config, s: State, now: int): State {
    var wait := c.throttleInterval - (now - s.lastThrottleReset);
    s.(throttleTimer := Some(now + if wait > 0 then wait else 0))
  }

  /** Takes the head of the queue and starts it. */
  function Start(s: State): State
    requires s.queue != []
  {
    var id := s.queue[0];
    s.(queue := s.queue[1..], armed := s.armed - {id}, activeRequests := s.activeRequests + 1,
       requestsInCurrentInterval := s.requestsInCurrentInterval + 1,
       started := s.started + [id], active := s.active + multiset{id})
  }

  /** A running request ends: its promise settles and its slot is given back. */
  function Finish(s: State, id: Id, ok: bool): State {
    Settle(s, id, if ok then Resolved else Rejected)
      .(activeRequests := s.activeRequests - 1, active := s.active - multiset{id})
  }

  function ProcessQueue(c: Config, s: State, now: int): (r: State)
    ensures |r.queue| <= |s.queue|
    decreases |s.queue|, 1
  {
    if c.enableThrottling then
      var (throttled, s') := IsThrottled(c, s, now);
      if throttled then ScheduleNextProcess(c, s', now) else Drain(c, s', now)
    else Drain(c, s, now)
  }

  /** The drain loop. A request function that throws synchronously is settled at once, and processes the queue
      from within the loop. */
  function Drain(c: Config, s: State, now: int): (r: State)
    ensures |r.queue| <= |s.queue|
    decreases |s.queue|, 0
  {
    if s.activeRequests < c.maxConcurrentRequests && s.queue != [] then
      var id := s.queue[0];
      var s' := Start(s);
      if c.throwsSync(id) then Drain(c, ProcessQueue(c, Finish(s', id, false), now), now)
      else Drain(c, s', now)
    else s
  }

  function Remove(queue: seq<Id>, id: Id): seq<Id> {
    if queue == [] then [] else if queue[0] == id then queue[1..] else [queue[0]] + Remove(queue[1..], id)
  }

  function CancelAll(queue: seq<Id>): (cancelled: seq<Settlement>)
    ensures |cancelled| == |queue|
    ensures forall i :: 0 <= i < |queue| ==> cancelled[i] == Settlement(queue[i], Cancelled)
  {
    if queue == [] then [] else [Settlement(queue[0], Cancelled)] + CancelAll(queue[1..])
  }

  function Step(c: Config, s: State, e: Event): State {
    match e
    case Submit(id, now) =>
      var s' := s.(queue := s.queue + [id], submitted := s.submitted + [id],
                   armed := if c.queueTimeout != 0 then s.armed + {id} else s.armed);
      ProcessQueue(c, s', now)
    case Complete(id, ok, now) => ProcessQueue(c, Finish(s, id, ok), now)
    case QueueTimeout(id) =>
      Settle(s.(queue := Remove(s.queue, id), armed := s.armed - {id}), id, TimedOut)
    case TimerFires(now) => ProcessQueue(c, s.(throttleTimer := None), now)
    case Clear =>
      s.(throttleTimer := None, queue := [], armed := s.armed - (set id | id in s.queue),
         settlements := s.settlements + CancelAll(s.queue))
    case ReadStatus(now) => if c.enableThrottling then IsThrottled(c, s, now).1 else s
  }

  /** Request ids are fresh, only running requests complete, and only timers that are set fire, not before they are due. */
  predicate Enabled(s: State, e: Event) {
    match e
    case Submit(id, _) => id !in s.submitted
    case Complete(id, _, _) => id in s.active
    case QueueTimeout(id) => id in s.armed
    case TimerFires(now) => s.throttleTimer.Some? && s.throttleTimer.value <= now
    case Clear => true
    case ReadStatus(_) => true
  }

  predicate Legal(c: Config, s: State, events: seq<Event>)
    decreases |events|
  {
    events == [] || (Enabled(s, events[0]) && Legal(c, Step(c, s, events[0]), events[1..]))
  }

  function After(c: Config, s: State, events: seq<Event>): State
    decreases |events|
  {
    if events == [] then s else After(c, Step(c, s, events[0]), events[1..])
  }

  // ---------------------------------------------------------------------------
  // The class
  // ---------------------------------------------------------------------------

  class Queue {
    const config: Config
    var activeRequests: int
    var queue: seq<Id>
    var throttleTimer: Option<int>
    var requestsInCurrentInterval: int
    var lastThrottleReset: int
    var armed: set<Id>
    ghost var submitted: seq<Id>
    ghost var started: seq<Id>
    ghost var startedAtReset: nat
    ghost var active: multiset<Id>
    ghost var settlements: seq<Settlement>

    ghost function Now(): State
      reads this
    {
      State(activeRequests, queue, throttleTimer, requestsInCurrentInterval, lastThrottleReset, armed,
            submitted, started, startedAtReset, active, settlements)
    }

    constructor (config: Config, now: int)
      ensures this.config == config && Now() == Init(now)
    {
      this.config := config;
      activeRequests, queue, throttleTimer := 0, [], None;
      requestsInCurrentInterval, lastThrottleReset, armed := 0, now, {};
      submitted, started, startedAtReset, active, settlements := [], [], 0, multiset{}, [];
    }

    method Execute(id: Id, now: int)
      modifies this
      ensures Now() == Step(config, old(Now()), Submit(id, now))
    {
      if config.queueTimeout != 0 {
        armed := armed + {id};
      }
      submitted := submitted + [id];
      queue := queue + [id];
      Process(now);
    }

    method Process(now: int)
      modifies this
      ensures Now() == ProcessQueue(config, old(Now()), now)
      ensures |queue| <= old(|queue|)
      decreases |queue|, 1
    {
      if config.enableThrottling {
        var throttled := CheckThrottled(now);
        if throttled {
          ScheduleNext(now);
          return;
        }
      }
      StartWhilePossible(now);
    }

    /** The drain loop of `processQueue`. */
    method StartWhilePossible(now: int)
      modifies this
      ensures Now() == Drain(config, old(Now()), now)
      ensures |queue| <= old(|queue|)
      decreases |queue|, 0
    {
      ghost var target := Drain(config, Now(), now);
      while activeRequests < config.maxConcurrentRequests && queue != []
        invariant Drain(config, Now(), now) == target
        invariant |queue| <= old(|queue|)
        decreases |queue|
      {
        var id := StartNext();
        if config.throwsSync(id) {
          ExecuteFinally(id, false, now);
        }
      }
    }

    method StartNext() returns (id: Id)
      requires queue != []
      modifies this
      ensures id == old(queue[0]) && Now() == Start(old(Now()))
      ensures |queue| == old(|queue|) - 1
    {
      id := queue[0];
      queue := queue[1..];
      armed := armed - {id};
      activeRequests := activeRequests + 1;
      requestsInCurrentInterval := requestsInCurrentInterval + 1;
      started, active := started + [id], active + multiset{id};
    }

    /** The settle-and-finally part of `executeRequest`. */
    method ExecuteFinally(id: Id, ok: bool, now: int)
      modifies this
      ensures Now() == ProcessQueue(config, Finish(old(Now()), id, ok), now)
      ensures |queue| <= old(|queue|)
      decreases |queue|, 2
    {
      settlements := settlements + [Settlement(id, if ok then Resolved else Rejected)];
      active := active - multiset{id};
      activeRequests := activeRequests - 1;
      assert Now() == Finish(old(Now()), id, ok);
      Process(now);
    }

    method CheckThrottled(now: int) returns (throttled: bool)
      modifies this
      ensures (throttled, Now()) == IsThrottled(config, old(Now()), now)
    {
      if now - lastThrottleReset >= config.throttleInterval {
        requestsInCurrentInterval := 0;
        lastThrottleReset := now;
        startedAtReset := |started|;
        return false;
      }
      return requestsInCurrentInterval >= config.throttleRate;
    }

    method ScheduleNext(now: int)
      modifies this
      ensures Now() == ScheduleNextProcess(config, old(Now()), now)
    {
      var timeUntilNextInterval := config.throttleInterval - (now - lastThrottleReset);
      throttleTimer := Some(now + if timeUntilNextInterval > 0 then timeUntilNextInterval else 0);
    }

    method OnTimeout(id: Id)
      modifies this
      ensures Now() == Step(config, old(Now()), QueueTimeout(id))
    {
      queue := Remove(queue, id);
      armed := armed - {id};
      settlements := settlements + [Settlement(id, TimedOut)];
    }

    method OnTimer(now: int)
      modifies this
      ensures Now() == Step(config, old(Now()), TimerFires(now))
    {
      throttleTimer := None;
      Process(now);
    }

    method ClearQueue()
      modifies this
      ensures Now() == Step(config, old(Now()), Clear)
    {
      throttleTimer := None;
      ghost var cancelled := CancelAll(queue);
      var i := 0;
      while i < |queue|
        invariant 0 <= i <= |queue| == |cancelled|
        invariant queue == old(queue) && throttleTimer == None
        invariant armed == old(armed) - (set k | 0 <= k < i :: queue[k])
        invariant settlements == old(settlements) + cancelled[..i]
        invariant activeRequests == old(activeRequests) && lastThrottleReset == old(lastThrottleReset)
        invariant requestsInCurrentInterval == old(requestsInCurrentInterval)
        invariant submitted == old(submitted) && started == old(started) && active == old(active)
        invariant startedAtReset == old(startedAtReset)
      {
        armed := armed - {queue[i]};
        settlements := settlements + [Settlement(queue[i], Cancelled)];
        i := i + 1;
      }
      queue := [];
    }

    method GetQueueStatus(now: int) returns (throttled: bool)
      modifies this
      ensures Now() == Step(config, old(Now()), ReadStatus(now))
      ensures throttled == (config.enableThrottling && IsThrottled(config, old(Now()), now).0)
    {
      throttled := false;
      if config.enableThrottling {
        throttled := CheckThrottled(now);
      }
    }
  }
}
