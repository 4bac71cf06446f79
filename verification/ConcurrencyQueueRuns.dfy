/**
 * Runs of the request scheduler that attain the bound of ConcurrencyQueueRates.dfy, and runs that exceed the configured
 * rate: when exactly the rate limit holds.
 */
module ConcurrencyQueueRuns {
  import opened Common
  import opened ConcurrencyQueue
  import opened ConcurrencyQueueProofs
  import opened ConcurrencyQueueRates

  /** `events` is a legal run that ends in `s`. */
  ghost predicate LeadsTo(c: Config, start: int, events: seq<Event>, s: State) {
    Legal(c, Init(start), events) && After(c, Init(start), events) == s
  }

  lemma {:induction false} RunOneMore(c: Config, s: State, events: seq<Event>, e: Event)
    requires Legal(c, s, events) && Enabled(After(c, s, events), e)
    ensures Legal(c, s, events + [e]) && After(c, s, events + [e]) == Step(c, After(c, s, events), e)
    decreases |events|
  {
    if events == [] {
      assert ([e])[1..] == [];
      assert events + [e] == [e];
    } else {
      RunOneMore(c, Step(c, s, events[0]), events[1..], e);
      assert (events + [e])[1..] == events[1..] + [e];
    }
  }

  lemma OneMore(c: Config, start: int, events: seq<Event>, s: State, e: Event)
    requires LeadsTo(c, start, events, s) && Enabled(s, e)
    ensures LeadsTo(c, start, events + [e], Step(c, s, e))
  {
    RunOneMore(c, Init(start), events, e);
  }

  lemma Reachable(c: Config, start: int, events: seq<Event>, s: State)
    requires LeadsTo(c, start, events, s)
    ensures Invariant(c, s) && Counted(s) && Burst(c, start, events) == Recent(s)
  {
    RunKeeps(c, Init(start), events);
    RunCounts(c, Init(start), events);
  }

  // ---------------------------------------------------------------------------
  // Inside a running interval
  // ---------------------------------------------------------------------------

  lemma {:induction false} ProcessStays(c: Config, s: State, now: int)
    requires c.enableThrottling && !IntervalOver(c, s, now)
    ensures var r := ProcessQueue(c, s, now);
            r.lastThrottleReset == s.lastThrottleReset && r.startedAtReset == s.startedAtReset && r.submitted == s.submitted
    decreases |s.queue|, 1
  {
    if !IsThrottled(c, s, now).0 {
      DrainStays(c, s, now);
    }
  }

  lemma {:induction false} DrainStays(c: Config, s: State, now: int)
    requires c.enableThrottling && !IntervalOver(c, s, now)
    ensures var r := Drain(c, s, now);
            r.lastThrottleReset == s.lastThrottleReset && r.startedAtReset == s.startedAtReset && r.submitted == s.submitted
    decreases |s.queue|, 0
  {
    if s.activeRequests < c.maxConcurrentRequests && s.queue != [] {
      var id, s' := s.queue[0], Start(s);
      if c.throwsSync(id) {
        ProcessStays(c, Finish(s', id, false), now);
        DrainStays(c, ProcessQueue(c, Finish(s', id, false), now), now);
      } else {
        DrainStays(c, s', now);
      }
    }
  }

  /** With nothing queued, processing at most sets the timer. */
  lemma EmptyProcess(c: Config, s: State, now: int)
    requires c.enableThrottling && s.queue == [] && !IntervalOver(c, s, now)
    ensures Drain(c, s, now) == s
    ensures ProcessQueue(c, s, now) == s.(throttleTimer := ProcessQueue(c, s, now).throttleTimer)
  {
  }

  // ---------------------------------------------------------------------------
  // Using up an interval
  // ---------------------------------------------------------------------------

  ghost predicate Limited(c: Config) {
    c.enableThrottling && c.throttleRate >= 1 && c.throttleInterval > 0
  }

  ghost predicate Distinct(ids: seq<Id>) {
    forall id :: multiset(ids)[id] <= 1
  }

  lemma DistinctFront(ids: seq<Id>)
    requires Distinct(ids) && ids != []
    ensures Distinct(ids[..|ids| - 1]) && ids[|ids| - 1] !in ids[..|ids| - 1]
  {
    var front, last := ids[..|ids| - 1], ids[|ids| - 1];
    assert ids == front + [last];
    forall id ensures multiset(front)[id] <= 1 {
      assert multiset(ids)[id] <= 1;
    }
    assert multiset(ids)[last] == multiset(front)[last] + 1;
  }

  /** All of `used` has been started in the first interval, and nothing is going on. */
  ghost predicate Idle(s: State, start: int, used: seq<Id>) {
    && s.activeRequests == 0 && s.active == multiset{} && s.queue == []
    && s.started == used && s.submitted == used
    && s.startedAtReset == 0 && s.lastThrottleReset == start && s.requestsInCurrentInterval == |used|
  }

  function Submitted(c: Config, s: State, id: Id): State {
    s.(queue := s.queue + [id], submitted := s.submitted + [id],
       armed := if c.queueTimeout != 0 then s.armed + {id} else s.armed)
  }

  lemma UseThrower(c: Config, s: State, start: int, used: seq<Id>, id: Id)
    requires Limited(c) && c.maxConcurrentRequests >= 1 && Idle(s, start, used) && |used| < c.throttleRate && c.throwsSync(id)
    ensures Idle(Step(c, s, Submit(id, start)), start, used + [id])
  {
    var t := Submitted(c, s, id);
    assert t.queue == [id] && t.queue[1..] == [];
    var done := Finish(Start(t), id, false);
    EmptyProcess(c, done, start);
    EmptyProcess(c, ProcessQueue(c, done, start), start);
    assert Step(c, s, Submit(id, start)) == Drain(c, t, start);
  }

  lemma UseNormal(c: Config, s: State, start: int, used: seq<Id>, id: Id)
    requires Limited(c) && c.maxConcurrentRequests >= 1 && Idle(s, start, used) && |used| < c.throttleRate && !c.throwsSync(id)
    ensures var t := Step(c, s, Submit(id, start));
            id in t.active && Idle(Step(c, t, Complete(id, true, start)), start, used + [id])
  {
    var t := Submitted(c, s, id);
    assert t.queue == [id] && t.queue[1..] == [];
    EmptyProcess(c, Start(t), start);
    assert Step(c, s, Submit(id, start)) == Drain(c, t, start) == Start(t);
    EmptyProcess(c, Finish(Start(t), id, true), start);
  }

  /** Starts the given requests one after the other in the first interval. */
  lemma {:induction false} UseUp(c: Config, start: int, ids: seq<Id>) returns (events: seq<Event>, s: State)
    requires Limited(c) && c.maxConcurrentRequests >= 1 && Distinct(ids) && |ids| <= c.throttleRate
    ensures LeadsTo(c, start, events, s) && Idle(s, start, ids)
  {
    if ids == [] {
      events, s := [], Init(start);
    } else {
      var front, last := ids[..|ids| - 1], ids[|ids| - 1];
      DistinctFront(ids);
      assert ids == front + [last];
      events, s := UseUp(c, start, front);
      var t := Step(c, s, Submit(last, start));
      OneMore(c, start, events, s, Submit(last, start));
      events := events + [Submit(last, start)];
      if c.throwsSync(last) {
        UseThrower(c, s, start, front, last);
        s := t;
      } else {
        UseNormal(c, s, start, front, last);
        OneMore(c, start, events, t, Complete(last, true, start));
        events := events + [Complete(last, true, start)];
        s := Step(c, t, Complete(last, true, start));
      }
    }
  }

  /** The interval is used up, and `waiting` is queued for the next one. */
  ghost predicate Backlogged(c: Config, s: State, start: int, used: seq<Id>, waiting: seq<Id>) {
    && s.activeRequests == 0 && s.queue == waiting
    && s.started == used && s.submitted == used + waiting
    && s.startedAtReset == 0 && s.lastThrottleReset == start
    && s.requestsInCurrentInterval == c.throttleRate == |used|
    && (waiting != [] ==> s.throttleTimer == Some(start + c.throttleInterval))
  }

  lemma {:induction false} QueueUp(c: Config, start: int, used: seq<Id>, waiting: seq<Id>) returns (events: seq<Event>, s: State)
    requires Limited(c) && c.maxConcurrentRequests >= 1 && Distinct(used + waiting) && |used| == c.throttleRate
    ensures LeadsTo(c, start, events, s) && Backlogged(c, s, start, used, waiting)
    decreases |waiting|
  {
    if waiting == [] {
      assert used + waiting == used;
      events, s := UseUp(c, start, used);
    } else {
      var front, last := waiting[..|waiting| - 1], waiting[|waiting| - 1];
      DistinctFront(used + waiting);
      assert (used + waiting)[..|used + waiting| - 1] == used + front;
      assert waiting == front + [last];
      events, s := QueueUp(c, start, used, front);
      QueueOne(c, s, start, used, front, last);
      OneMore(c, start, events, s, Submit(last, start));
      events := events + [Submit(last, start)];
      s := Step(c, s, Submit(last, start));
    }
  }

  lemma QueueOne(c: Config, s: State, start: int, used: seq<Id>, front: seq<Id>, last: Id)
    requires Limited(c) && Backlogged(c, s, start, used, front)
    ensures Backlogged(c, Step(c, s, Submit(last, start)), start, used, front + [last])
  {
    Assoc(used, front, [last]);
    assert ProcessQueue(c, Submitted(c, s, last), start) == ScheduleNextProcess(c, Submitted(c, s, last), start);
  }

  // ---------------------------------------------------------------------------
  // The next interval
  // ---------------------------------------------------------------------------

  /** In the interval that began at `now`, the first `k` of `waiting` have been started. */
  ghost predicate Serving(c: Config, s: State, now: int, used: seq<Id>, waiting: seq<Id>, k: nat) {
    && k <= |waiting|
    && s.started == used + waiting[..k] && s.queue == waiting[k..]
    && s.startedAtReset == |used| && s.lastThrottleReset == now
    && (k < |waiting| ==> s.activeRequests >= c.maxConcurrentRequests)
  }

  lemma ServingBurst(c: Config, start: int, events: seq<Event>, s: State, now: int, used: seq<Id>, waiting: seq<Id>, k: nat)
    requires LeadsTo(c, start, events, s) && Serving(c, s, now, used, waiting, k)
    ensures Burst(c, start, events) == waiting[..k] && s.requestsInCurrentInterval == k
  {
    Reachable(c, start, events, s);
    assert (used + waiting[..k])[|used|..] == waiting[..k];
  }

  /** A drain goes on with `waiting` from where it stands. */
  lemma ServingOn(c: Config, t: State, r: State, now: int, used: seq<Id>, waiting: seq<Id>, k: nat) returns (j: nat)
    requires k <= |waiting| && t.started == used + waiting[..k] && t.queue == waiting[k..]
    requires Serves(c, t, r) && r.startedAtReset == |used| && r.lastThrottleReset == now
    ensures j == k + Served(c, t.queue, c.maxConcurrentRequests - t.activeRequests) && Serving(c, r, now, used, waiting, j)
    ensures k < j < |waiting| ==> !c.throwsSync(waiting[j - 1])
  {
    var more := Served(c, t.queue, c.maxConcurrentRequests - t.activeRequests);
    j := k + more;
    ServedFills(c, t.queue, c.maxConcurrentRequests - t.activeRequests);
    LeavesNothing(c, t, r);
    TakeMore(used, waiting, k, more);
  }

  lemma TakeMore<T>(used: seq<T>, waiting: seq<T>, k: nat, more: nat)
    requires k + more <= |waiting|
    ensures (used + waiting[..k]) + waiting[k..][..more] == used + waiting[..k + more]
    ensures waiting[k..][more..] == waiting[k + more..]
    ensures more > 0 ==> waiting[k..][more - 1] == waiting[k + more - 1]
  {
  }

  /** Queues up requests behind a used-up interval and lets the timer fire. */
  lemma FireRun(c: Config, start: int, used: seq<Id>, waiting: seq<Id>) returns (events: seq<Event>, s: State, k: nat)
    requires Limited(c) && c.maxConcurrentRequests >= 1 && Distinct(used + waiting) && |used| == c.throttleRate && waiting != []
    ensures LeadsTo(c, start, events, s) && Serving(c, s, start + c.throttleInterval, used, waiting, k)
    ensures k == Served(c, waiting, c.maxConcurrentRequests)
    ensures 0 < k < |waiting| ==> !c.throwsSync(waiting[k - 1])
  {
    var now := start + c.throttleInterval;
    events, s := QueueUp(c, start, used, waiting);
    OneMore(c, start, events, s, TimerFires(now));
    var t := IsThrottled(c, s.(throttleTimer := None), now).1;
    var r := Step(c, s, TimerFires(now));
    DrainServes(c, t, now);
    DrainStays(c, t, now);
    assert waiting[..0] == [] && waiting[0..] == waiting && used + [] == used;
    k := ServingOn(c, t, r, now, used, waiting, 0);
    events, s := events + [TimerFires(now)], r;
  }

  /** In an interval that is not used up, completing a request starts at least one that waits. */
  lemma CompleteOne(c: Config, start: int, events: seq<Event>, s: State, now: int, used: seq<Id>, waiting: seq<Id>, k: nat)
    returns (events': seq<Event>, r: State, j: nat)
    requires Limited(c) && c.maxConcurrentRequests >= 1 && LeadsTo(c, start, events, s)
    requires Serving(c, s, now, used, waiting, k) && k < |waiting| && k < c.throttleRate
    ensures LeadsTo(c, start, events', r) && Serving(c, r, now, used, waiting, j)
    ensures k < j && (j < |waiting| ==> !c.throwsSync(waiting[j - 1]))
  {
    Reachable(c, start, events, s);
    ServingBurst(c, start, events, s, now, used, waiting, k);
    assert |s.active| > 0;
    var id :| id in s.active;
    var e := Complete(id, true, now);
    OneMore(c, start, events, s, e);
    var t := Finish(s, id, true);
    events', r := events + [e], Step(c, s, e);
    DrainServes(c, t, now);
    DrainStays(c, t, now);
    ServedFills(c, t.queue, c.maxConcurrentRequests - t.activeRequests);
    j := ServingOn(c, t, r, now, used, waiting, k);
  }

  /** If the request that would use up the interval throws synchronously and another one waits, completing requests
      one by one exceeds the rate. */
  lemma {:induction false} Overrun(c: Config, start: int, events: seq<Event>, s: State, now: int, used: seq<Id>, waiting: seq<Id>,
                                   k: nat) returns (events': seq<Event>)
    requires Limited(c) && c.maxConcurrentRequests >= 1 && LeadsTo(c, start, events, s)
    requires Serving(c, s, now, used, waiting, k) && 0 < k && (k < |waiting| ==> !c.throwsSync(waiting[k - 1]))
    requires |waiting| == c.throttleRate + 1 && c.throwsSync(waiting[c.throttleRate - 1])
    ensures Legal(c, Init(start), events') && |Burst(c, start, events')| > c.throttleRate
    decreases |waiting| - k
  {
    ServingBurst(c, start, events, s, now, used, waiting, k);
    if k == |waiting| {
      events' := events;
    } else {
      var more, r, j := CompleteOne(c, start, events, s, now, used, waiting, k);
      events' := Overrun(c, start, more, r, now, used, waiting, j);
    }
  }

  // ---------------------------------------------------------------------------
  // Fresh ids
  // ---------------------------------------------------------------------------

  function Ids(from: nat, n: nat): (ids: seq<Id>)
    ensures |ids| == n && forall id :: id in ids ==> from <= id < from + n
  {
    if n == 0 then [] else Ids(from, n - 1) + [from + n - 1]
  }

  lemma {:induction false} IdsDistinct(from: nat, n: nat)
    ensures Distinct(Ids(from, n))
  {
    if n == 0 {
    } else {
      IdsDistinct(from, n - 1);
      var front, last := Ids(from, n - 1), from + n - 1;
      assert last !in front && (last in front <==> last in multiset(front));
      forall id ensures multiset(front + [last])[id] <= 1 {
        assert multiset(front)[id] <= 1;
      }
    }
  }

  lemma DistinctJoin(a: seq<Id>, b: seq<Id>)
    requires Distinct(a) && Distinct(b) && forall id :: id in a ==> id !in b
    ensures Distinct(a + b)
  {
    forall id ensures multiset(a + b)[id] <= 1 {
      assert multiset(a)[id] <= 1 && multiset(b)[id] <= 1;
      assert multiset(a)[id] > 0 ==> id in a;
      assert multiset(b)[id] > 0 ==> id in b;
    }
  }

  /** An id above all of these. */
  function Above(ids: seq<Id>): (top: nat)
    ensures forall id :: id in ids ==> id < top
  {
    if ids == [] then 0
    else
      var rest := Above(ids[1..]);
      assert ids == [ids[0]] + ids[1..];
      if ids[0] < rest then rest else ids[0] + 1
  }

  // ---------------------------------------------------------------------------
  // The bound is exact
  // ---------------------------------------------------------------------------

  /** So many requests whose functions do not throw synchronously. */
  ghost predicate EnoughNormals(c: Config, ids: seq<Id>, n: int) {
    |ids| == n && Distinct(ids) && forall id :: id in ids ==> !c.throwsSync(id)
  }

  /** Requests that do not throw synchronously, behind an interval used up with others: all that the cap allows start. */
  lemma CapRun(c: Config, start: int, ids: seq<Id>) returns (events: seq<Event>)
    requires Limited(c) && ids != [] && |ids| <= c.maxConcurrentRequests && Distinct(ids)
    ensures Legal(c, Init(start), events) && Burst(c, start, events) == ids
  {
    var used := Ids(Above(ids), c.throttleRate);
    IdsDistinct(Above(ids), c.throttleRate);
    DistinctJoin(used, ids);
    var s, k;
    events, s, k := FireRun(c, start, used, ids);
    ServedFills(c, ids, c.maxConcurrentRequests);
    ServingBurst(c, start, events, s, start + c.throttleInterval, used, ids, k);
    assert ids[..|ids|] == ids;
  }

  lemma SteadyRun(c: Config, start: int, ids: seq<Id>) returns (events: seq<Event>)
    requires Limited(c) && c.maxConcurrentRequests >= 1 && |ids| <= c.throttleRate && Distinct(ids)
    ensures Legal(c, Init(start), events) && Burst(c, start, events) == ids
  {
    var s;
    events, s := UseUp(c, start, ids);
    Reachable(c, start, events, s);
    assert ids[0..] == ids;
  }

  function NormalsOf(c: Config, ids: seq<Id>): seq<Id> {
    if ids == [] then [] else (if c.throwsSync(ids[0]) then [] else [ids[0]]) + NormalsOf(c, ids[1..])
  }

  lemma {:induction false} NormalsOfCount(c: Config, ids: seq<Id>)
    ensures |NormalsOf(c, ids)| == Normals(c, ids)
    ensures forall id :: id in NormalsOf(c, ids) ==> !c.throwsSync(id)
    ensures multiset(NormalsOf(c, ids)) <= multiset(ids)
  {
    if ids == [] {
    } else {
      NormalsOfCount(c, ids[1..]);
      assert ids == [ids[0]] + ids[1..];
    }
  }

  lemma DistinctWithin(a: seq<Id>, b: seq<Id>)
    requires multiset(a) <= multiset(b) && Distinct(b)
    ensures Distinct(a)
  {
    forall id ensures multiset(a)[id] <= 1 {
      assert multiset(b)[id] <= 1;
    }
  }

  lemma DistinctParts(a: seq<Id>, b: seq<Id>)
    requires Distinct(a + b)
    ensures Distinct(a) && Distinct(b)
  {
    assert multiset(a + b) == multiset(a) + multiset(b);
    DistinctWithin(a, a + b);
    DistinctWithin(b, a + b);
  }

  lemma StartedDistinct(s: State)
    requires Conserved(s) && Fifo(s)
    ensures Distinct(s.started)
  {
    WithoutMembers(s.submitted, Dropped(s.settlements));
    DistinctWithin(s.started + s.queue, s.submitted);
    DistinctParts(s.started, s.queue);
  }

  lemma BurstDistinct(c: Config, start: int, events: seq<Event>)
    requires Legal(c, Init(start), events)
    ensures Distinct(Burst(c, start, events))
  {
    var s := After(c, Init(start), events);
    Reachable(c, start, events, s);
    StartedDistinct(s);
    assert s.started == s.started[..s.startedAtReset] + Recent(s);
    DistinctParts(s.started[..s.startedAtReset], Recent(s));
  }

  /** With a positive rate and interval and room for a request, some run attains the bound on the starts that take a
      slot if and only if there are that many requests that take one. */
  lemma BurstAttainedExactly(c: Config, start: int)
    requires Limited(c) && c.maxConcurrentRequests >= 1
    ensures (exists events :: Legal(c, Init(start), events)
                              && Normals(c, Burst(c, start, events)) == Max(c.throttleRate, c.maxConcurrentRequests))
       <==> exists ids :: EnoughNormals(c, ids, Max(c.throttleRate, c.maxConcurrentRequests))
  {
    var most := Max(c.throttleRate, c.maxConcurrentRequests);
    if ids :| EnoughNormals(c, ids, most) {
      var events;
      if c.maxConcurrentRequests > c.throttleRate {
        events := CapRun(c, start, ids);
      } else {
        events := SteadyRun(c, start, ids);
      }
      AllNormal(c, ids);
    }
    if events :| Legal(c, Init(start), events) && Normals(c, Burst(c, start, events)) == most {
      var burst := Burst(c, start, events);
      BurstDistinct(c, start, events);
      NormalsOfCount(c, burst);
      DistinctWithin(NormalsOf(c, burst), burst);
      assert EnoughNormals(c, NormalsOf(c, burst), most);
    }
  }

  // ---------------------------------------------------------------------------
  // When the configured rate holds
  // ---------------------------------------------------------------------------

  lemma ProcessStartsNothing(c: Config, s: State, now: int)
    requires c.maxConcurrentRequests <= s.activeRequests
    ensures ProcessQueue(c, s, now).started == s.started
  {
  }

  lemma StepStartsNothing(c: Config, s: State, e: Event)
    requires c.maxConcurrentRequests <= 0 && Capped(c, s) && Enabled(s, e)
    ensures Step(c, s, e).started == s.started
  {
    match e
    case Submit(id, now) => ProcessStartsNothing(c, Submitted(c, s, id), now);
    case Complete(id, ok, now) => ProcessStartsNothing(c, Finish(s, id, ok), now);
    case QueueTimeout(id) =>
    case TimerFires(now) => ProcessStartsNothing(c, s.(throttleTimer := None), now);
    case Clear =>
    case ReadStatus(now) =>
  }

  lemma {:induction false} NothingStarts(c: Config, s: State, events: seq<Event>)
    requires c.maxConcurrentRequests <= 0 && Invariant(c, s) && Legal(c, s, events)
    ensures After(c, s, events).started == s.started
    decreases |events|
  {
    if events == [] {
    } else {
      StepKeeps(c, s, events[0]);
      StepStartsNothing(c, s, events[0]);
      NothingStarts(c, Step(c, s, events[0]), events[1..]);
    }
  }

  /** One request function that throws synchronously is enough to exceed the rate, whatever the others do. */
  lemma ThrowerRun(c: Config, start: int, x: Id) returns (events: seq<Event>)
    requires Limited(c) && c.maxConcurrentRequests >= 1 && c.throwsSync(x)
    ensures Legal(c, Init(start), events) && |Burst(c, start, events)| > c.throttleRate
  {
    var used, waiting := ThrowerIds(x, c.throttleRate);
    var before, s, k := FireRun(c, start, used, waiting);
    ServedFills(c, waiting, c.maxConcurrentRequests);
    events := Overrun(c, start, before, s, start + c.throttleInterval, used, waiting, k);
  }

  /** Distinct requests, among them `x` as the one that would use up the second interval. */
  lemma ThrowerIds(x: Id, n: nat) returns (used: seq<Id>, waiting: seq<Id>)
    requires n >= 1
    ensures |used| == n && |waiting| == n + 1 && waiting[n - 1] == x && Distinct(used + waiting)
  {
    var others, last := Ids(x + 1 + n, n - 1), x + 2 * n;
    used, waiting := Ids(x + 1, n), others + [x, last];
    IdsDistinct(x + 1, n);
    IdsDistinct(x + 1 + n, n - 1);
    DistinctPair(x, last);
    DistinctJoin(others, [x, last]);
    DistinctJoin(used, waiting);
  }

  lemma DistinctPair(x: Id, y: Id)
    requires x != y
    ensures Distinct([x, y])
  {
  }

  lemma WideCapRun(c: Config, start: int) returns (events: seq<Event>)
    requires Limited(c) && c.maxConcurrentRequests > c.throttleRate
    ensures Legal(c, Init(start), events) && |Burst(c, start, events)| > c.throttleRate
  {
    IdsDistinct(0, c.maxConcurrentRequests);
    events := CapRun(c, start, Ids(0, c.maxConcurrentRequests));
  }

  /** With a positive rate and interval, the starts since a reset stay within the rate in every run exactly when nothing
      can start at all, or the cap is within the rate and no request function throws synchronously. */
  lemma RateHoldsExactly(c: Config, start: int)
    requires Limited(c)
    ensures (forall events :: Legal(c, Init(start), events) ==> |Burst(c, start, events)| <= c.throttleRate)
       <==> c.maxConcurrentRequests <= 0 || (c.maxConcurrentRequests <= c.throttleRate && forall id :: !c.throwsSync(id))
  {
    if c.maxConcurrentRequests <= 0 {
      forall events | Legal(c, Init(start), events) ensures |Burst(c, start, events)| <= c.throttleRate {
        NothingStarts(c, Init(start), events);
        Reachable(c, start, events, After(c, Init(start), events));
      }
    } else if c.maxConcurrentRequests > c.throttleRate {
      var events := WideCapRun(c, start);
    } else if x :| c.throwsSync(x) {
      var events := ThrowerRun(c, start, x);
    } else {
      forall events | Legal(c, Init(start), events) ensures |Burst(c, start, events)| <= c.throttleRate {
        BurstBound(c, start, events);
      }
    }
  }

  /** One request at a time, one start a second, and a request that throws synchronously. */
  const ONE_THROWS := Config(1, 0, true, 1, 1000, OnlyOneThrows)

  predicate OnlyOneThrows(id: Id) {
    id == 1
  }

  const TWO_AT_ONCE := [Submit(0, 0), Submit(1, 0), Submit(2, 0), Complete(0, true, 0), TimerFires(1000)]

  // The states of this run before the timer fires.
  const STARTED := State(1, [], None, 1, 0, {}, [0], [0], 0, multiset{0}, [])
  const QUEUED := State(1, [1], Some(1000), 1, 0, {}, [0, 1], [0], 0, multiset{0}, [])
  const FULL := State(1, [1, 2], Some(1000), 1, 0, {}, [0, 1, 2], [0], 0, multiset{0}, [])
  const FREED := State(0, [1, 2], Some(1000), 1, 0, {}, [0, 1, 2], [0], 0, multiset{}, [Settlement(0, Resolved)])

  lemma FirstStarts()
    ensures Step(ONE_THROWS, Init(0), Submit(0, 0)) == STARTED
  {
    var first := Submitted(ONE_THROWS, Init(0), 0);
    assert first.queue == [0] && first.queue[1..] == [];
    assert Start(first) == STARTED;
    assert Drain(ONE_THROWS, STARTED, 0) == STARTED;
  }

  lemma OthersWait()
    ensures Step(ONE_THROWS, STARTED, Submit(1, 0)) == QUEUED
    ensures Step(ONE_THROWS, QUEUED, Submit(2, 0)) == FULL
  {
  }

  lemma FirstCompletes()
    ensures Step(ONE_THROWS, FULL, Complete(0, true, 0)) == FREED
  {
  }

  /** Both waiting requests start together, although only one may start in the interval. */
  lemma BothStart() returns (last: State)
    ensures last == Step(ONE_THROWS, FREED, TimerFires(1000)) && last.started == [0, 1, 2] && last.startedAtReset == 1
  {
    last := Step(ONE_THROWS, FREED, TimerFires(1000));
    var t := IsThrottled(ONE_THROWS, FREED.(throttleTimer := None), 1000).1;
    DrainServes(ONE_THROWS, t, 1000);
    DrainStays(ONE_THROWS, t, 1000);
    assert [1, 2][1..] == [2] && [2][1..] == [];
    assert Served(ONE_THROWS, [1, 2], 1) == 2;
    assert [0] + [1, 2][..2] == [0, 1, 2];
  }

  lemma FiveSteps(c: Config, start: int, s1: State, s2: State, s3: State, s4: State, s5: State,
                  e1: Event, e2: Event, e3: Event, e4: Event, e5: Event)
    requires Enabled(Init(start), e1) && Step(c, Init(start), e1) == s1
    requires Enabled(s1, e2) && Step(c, s1, e2) == s2
    requires Enabled(s2, e3) && Step(c, s2, e3) == s3
    requires Enabled(s3, e4) && Step(c, s3, e4) == s4
    requires Enabled(s4, e5) && Step(c, s4, e5) == s5
    ensures LeadsTo(c, start, [e1, e2, e3, e4, e5], s5)
  {
    OneMore(c, start, [], Init(start), e1);
    OneMore(c, start, [] + [e1], s1, e2);
    OneMore(c, start, [] + [e1] + [e2], s2, e3);
    OneMore(c, start, [] + [e1] + [e2] + [e3], s3, e4);
    OneMore(c, start, [] + [e1] + [e2] + [e3] + [e4], s4, e5);
    assert [e1, e2, e3, e4, e5] == [] + [e1] + [e2] + [e3] + [e4] + [e5];
  }

  /** Two requests start in one interval: the one that throws takes no slot, and the drain goes on. */
  lemma ThrowerExceedsRate()
    ensures ONE_THROWS.throttleRate == ONE_THROWS.maxConcurrentRequests == 1
    ensures Legal(ONE_THROWS, Init(0), TWO_AT_ONCE)
    ensures Burst(ONE_THROWS, 0, TWO_AT_ONCE) == [1, 2]
  {
    FirstStarts();
    OthersWait();
    FirstCompletes();
    var last := BothStart();
    FiveSteps(ONE_THROWS, 0, STARTED, QUEUED, FULL, FREED, last,
              Submit(0, 0), Submit(1, 0), Submit(2, 0), Complete(0, true, 0), TimerFires(1000));
    Reachable(ONE_THROWS, 0, TWO_AT_ONCE, last);
    assert [0, 1, 2][1..] == [1, 2];
  }
}
