/**
 * The rate limit of the request scheduler: how many starts one interval can see. A request function that throws before
 * it returns a promise takes no slot, and is counted, but the drain that starts it goes on.
 */
module ConcurrencyQueueRates {
  import opened Common
  import opened ConcurrencyQueue
  import opened ConcurrencyQueueProofs

  function Max(a: int, b: int): int {
    if a < b then b else a
  }

  // ---------------------------------------------------------------------------
  // What a drain starts
  // ---------------------------------------------------------------------------

  /** How many of these requests take a slot: those that do not throw synchronously. */
  function Normals(c: Config, ids: seq<Id>): (n: nat)
    ensures n <= |ids|
  {
    if ids == [] then 0 else (if c.throwsSync(ids[0]) then 0 else 1) + Normals(c, ids[1..])
  }

  lemma {:induction false} NormalsConcat(c: Config, a: seq<Id>, b: seq<Id>)
    ensures Normals(c, a + b) == Normals(c, a) + Normals(c, b)
  {
    if a == [] {
      assert a + b == b;
    } else {
      NormalsConcat(c, a[1..], b);
      assert (a + b)[1..] == a[1..] + b;
    }
  }

  lemma {:induction false} AllNormal(c: Config, ids: seq<Id>)
    ensures Normals(c, ids) == |ids| <==> forall id :: id in ids ==> !c.throwsSync(id)
  {
    if ids == [] {
    } else {
      AllNormal(c, ids[1..]);
      assert ids == [ids[0]] + ids[1..];
    }
  }

  /** How many requests a drain with this much room starts: the first ones, until those that take a slot fill the
      room. */
  function Served(c: Config, queue: seq<Id>, room: int): (k: nat)
    ensures k <= |queue|
  {
    if queue == [] || room <= 0 then 0
    else 1 + Served(c, queue[1..], if c.throwsSync(queue[0]) then room else room - 1)
  }

  lemma TakeCons<T>(q: seq<T>, k: nat)
    requires q != [] && k <= |q| - 1
    ensures q[..k + 1] == [q[0]] + q[1..][..k] && q[k + 1..] == q[1..][k..]
  {
  }

  /** A drain leaves requests behind only when the room is full, and then the last one it started takes a slot. */
  lemma {:induction false} ServedFills(c: Config, queue: seq<Id>, room: int)
    ensures var k := Served(c, queue, room);
            && Normals(c, queue[..k]) <= Max(room, 0)
            && (k < |queue| && room > 0 ==> Normals(c, queue[..k]) == room)
            && (room > 0 && queue != [] ==> k > 0)
            && (0 < k < |queue| ==> !c.throwsSync(queue[k - 1]))
            && (|queue| <= room ==> k == |queue|)
  {
    if queue == [] || room <= 0 {
    } else {
      var rest := if c.throwsSync(queue[0]) then room else room - 1;
      var j := Served(c, queue[1..], rest);
      ServedFills(c, queue[1..], rest);
      TakeCons(queue, j);
      NormalsConcat(c, [queue[0]], queue[1..][..j]);
      assert Normals(c, [queue[0]]) == (if c.throwsSync(queue[0]) then 0 else 1) by {
        assert [queue[0]][1..] == [];
      }
    }
  }

  /** `r` is `s` after a drain, as far as starting goes. */
  ghost predicate Serves(c: Config, s: State, r: State) {
    var k := Served(c, s.queue, c.maxConcurrentRequests - s.activeRequests);
    && r.started == s.started + s.queue[..k] && r.queue == s.queue[k..]
    && r.activeRequests == s.activeRequests + Normals(c, s.queue[..k])
  }

  ghost predicate SameStarts(s: State, r: State) {
    r.started == s.started && r.queue == s.queue && r.activeRequests == s.activeRequests
  }

  /** Starting the head of the queue, and then serving the rest, is serving. */
  lemma ServesCons(c: Config, s: State, t: State, r: State)
    requires s.queue != [] && s.activeRequests < c.maxConcurrentRequests
    requires t.started == s.started + [s.queue[0]] && t.queue == s.queue[1..]
    requires t.activeRequests == s.activeRequests + if c.throwsSync(s.queue[0]) then 0 else 1
    requires Serves(c, t, r)
    ensures Serves(c, s, r)
  {
    var j := Served(c, t.queue, c.maxConcurrentRequests - t.activeRequests);
    TakeCons(s.queue, j);
    NormalsConcat(c, [s.queue[0]], t.queue[..j]);
    Assoc(s.started, [s.queue[0]], t.queue[..j]);
    assert [s.queue[0]][1..] == [];
  }

  lemma LeavesNothing(c: Config, s: State, r: State)
    requires Serves(c, s, r)
    ensures r.queue == [] || r.activeRequests >= c.maxConcurrentRequests
  {
    ServedFills(c, s.queue, c.maxConcurrentRequests - s.activeRequests);
  }

  /** After a drain, there is nothing left to serve. */
  lemma ServesOnce(c: Config, s: State, t: State, r: State)
    requires Serves(c, s, t) && Serves(c, t, r)
    ensures SameStarts(t, r)
  {
    LeavesNothing(c, s, t);
    assert t.queue[..0] == [] && t.queue[0..] == t.queue && t.started + [] == t.started;
  }

  lemma SameThenServes(c: Config, s: State, t: State, r: State)
    requires SameStarts(s, t) && Serves(c, t, r)
    ensures Serves(c, s, r)
  {
  }

  lemma ServesThenSame(c: Config, s: State, t: State, r: State)
    requires Serves(c, s, t) && SameStarts(t, r)
    ensures Serves(c, s, r)
  {
  }

  /** Whatever is throttled inside it, a drain starts exactly the requests that fit. */
  lemma {:induction false} DrainServes(c: Config, s: State, now: int)
    ensures Serves(c, s, Drain(c, s, now))
    decreases |s.queue|, 0
  {
    var r := Drain(c, s, now);
    if s.activeRequests < c.maxConcurrentRequests && s.queue != [] {
      var id, s' := s.queue[0], Start(s);
      if c.throwsSync(id) {
        var done := Finish(s', id, false);
        var t := ProcessQueue(c, done, now);
        ProcessServes(c, done, now);
        DrainServes(c, t, now);
        if SameStarts(done, t) {
          SameThenServes(c, done, t, r);
        } else {
          ServesOnce(c, done, t, r);
          ServesThenSame(c, done, t, r);
        }
        ServesCons(c, s, done, r);
      } else {
        DrainServes(c, s', now);
        ServesCons(c, s, s', r);
      }
    } else {
      assert s.started + [] == s.started;
    }
  }

  lemma {:induction false} ProcessServes(c: Config, s: State, now: int)
    ensures SameStarts(s, ProcessQueue(c, s, now)) || Serves(c, s, ProcessQueue(c, s, now))
    decreases |s.queue|, 1
  {
    if !c.enableThrottling {
      DrainServes(c, s, now);
    } else if !IsThrottled(c, s, now).0 {
      var t := IsThrottled(c, s, now).1;
      DrainServes(c, t, now);
      SameThenServes(c, s, t, Drain(c, t, now));
    }
  }

  // ---------------------------------------------------------------------------
  // The counter counts starts
  // ---------------------------------------------------------------------------

  /** The counter is the number of starts since the last reset. */
  ghost predicate Counted(s: State) {
    s.startedAtReset <= |s.started| && s.requestsInCurrentInterval == |s.started| - s.startedAtReset
  }

  lemma {:induction false} ProcessCounts(c: Config, s: State, now: int)
    requires Counted(s)
    ensures Counted(ProcessQueue(c, s, now))
    decreases |s.queue|, 1
  {
    if !c.enableThrottling {
      DrainCounts(c, s, now);
    } else if !IsThrottled(c, s, now).0 {
      DrainCounts(c, IsThrottled(c, s, now).1, now);
    }
  }

  lemma {:induction false} DrainCounts(c: Config, s: State, now: int)
    requires Counted(s)
    ensures Counted(Drain(c, s, now))
    decreases |s.queue|, 0
  {
    if s.activeRequests < c.maxConcurrentRequests && s.queue != [] {
      var id, s' := s.queue[0], Start(s);
      if c.throwsSync(id) {
        ProcessCounts(c, Finish(s', id, false), now);
        DrainCounts(c, ProcessQueue(c, Finish(s', id, false), now), now);
      } else {
        DrainCounts(c, s', now);
      }
    }
  }

  lemma StepCounts(c: Config, s: State, e: Event)
    requires Counted(s)
    ensures Counted(Step(c, s, e))
  {
    match e
    case Submit(id, now) =>
      ProcessCounts(c, s.(queue := s.queue + [id], submitted := s.submitted + [id],
                          armed := if c.queueTimeout != 0 then s.armed + {id} else s.armed), now);
    case Complete(id, ok, now) => ProcessCounts(c, Finish(s, id, ok), now);
    case QueueTimeout(id) =>
    case TimerFires(now) => ProcessCounts(c, s.(throttleTimer := None), now);
    case Clear =>
    case ReadStatus(now) =>
  }

  lemma {:induction false} RunCounts(c: Config, s: State, events: seq<Event>)
    requires Counted(s)
    ensures Counted(After(c, s, events))
    decreases |events|
  {
    if events == [] {
    } else {
      StepCounts(c, s, events[0]);
      RunCounts(c, Step(c, s, events[0]), events[1..]);
    }
  }

  /** The requests started since the rate limit was last reset. */
  function Recent(s: State): seq<Id>
    requires s.startedAtReset <= |s.started|
  {
    s.started[s.startedAtReset..]
  }

  /** The requests of a run that started since the rate limit was last reset. */
  function Burst(c: Config, start: int, events: seq<Event>): seq<Id> {
    RunCounts(c, Init(start), events);
    Recent(After(c, Init(start), events))
  }

  /** Every start since the last reset that takes a slot takes one that was free. */
  lemma {:induction false} ProcessNormals(c: Config, s: State, now: int)
    requires Counted(s)
    ensures var r := ProcessQueue(c, s, now);
            Counted(r) && Normals(c, Recent(r)) <= Normals(c, Recent(s)) + (r.activeRequests - s.activeRequests)
    decreases |s.queue|, 1
  {
    if !c.enableThrottling {
      DrainNormals(c, s, now);
    } else if !IsThrottled(c, s, now).0 {
      var t := IsThrottled(c, s, now).1;
      assert IntervalOver(c, s, now) ==> Recent(t) == [];
      DrainNormals(c, t, now);
    }
  }

  lemma StartNormals(c: Config, s: State)
    requires Counted(s) && s.queue != []
    ensures Counted(Start(s))
    ensures Normals(c, Recent(Start(s))) == Normals(c, Recent(s)) + if c.throwsSync(s.queue[0]) then 0 else 1
  {
    var id := s.queue[0];
    assert Recent(Start(s)) == Recent(s) + [id];
    NormalsConcat(c, Recent(s), [id]);
    assert [id][1..] == [];
  }

  lemma {:induction false} DrainNormals(c: Config, s: State, now: int)
    requires Counted(s)
    ensures var r := Drain(c, s, now);
            Counted(r) && Normals(c, Recent(r)) <= Normals(c, Recent(s)) + (r.activeRequests - s.activeRequests)
    decreases |s.queue|, 0
  {
    if s.activeRequests < c.maxConcurrentRequests && s.queue != [] {
      var id, s' := s.queue[0], Start(s);
      StartNormals(c, s);
      if c.throwsSync(id) {
        var done := Finish(s', id, false);
        assert Recent(done) == Recent(s');
        ProcessNormals(c, done, now);
        DrainNormals(c, ProcessQueue(c, done, now), now);
      } else {
        DrainNormals(c, s', now);
      }
    }
  }

  // ---------------------------------------------------------------------------
  // The bound
  // ---------------------------------------------------------------------------

  /** How many slots a drain can fill. */
  function Room(c: Config, s: State): nat {
    if s.activeRequests >= c.maxConcurrentRequests then 0
    else if |s.queue| <= c.maxConcurrentRequests - s.activeRequests then |s.queue|
    else c.maxConcurrentRequests - s.activeRequests
  }

  lemma DrainWithinRoom(c: Config, s: State, now: int)
    requires Counted(s)
    ensures var r := Drain(c, s, now);
            && Counted(r) && s.activeRequests <= r.activeRequests <= s.activeRequests + Room(c, s)
            && Normals(c, Recent(r)) <= Normals(c, Recent(s)) + Room(c, s)
  {
    DrainNormals(c, s, now);
    DrainServes(c, s, now);
    ServedFills(c, s.queue, c.maxConcurrentRequests - s.activeRequests);
  }

  function Bound(c: Config): int {
    Max(0, Max(c.throttleRate, c.maxConcurrentRequests))
  }

  /** The starts since the last reset that take a slot keep the bound; waiting requests with room to start occur only in
      a used-up interval, or in one where nothing has started. */
  ghost predicate Paced(c: Config, s: State) {
    && Counted(s) && s.activeRequests >= 0
    && Normals(c, Recent(s)) <= Bound(c)
    && (Room(c, s) > 0 ==> s.requestsInCurrentInterval >= c.throttleRate || s.requestsInCurrentInterval == 0)
  }

  /** The limit is tested once per drain, not per start. Inside a running interval a drain has room for at most one
      request that takes a slot, so the pace is kept. */
  lemma ProcessPaced(c: Config, s: State, now: int)
    requires c.enableThrottling && s.activeRequests >= 0 && Counted(s) && Normals(c, Recent(s)) <= Bound(c)
    requires Room(c, s) > 1 ==> s.requestsInCurrentInterval >= c.throttleRate || s.requestsInCurrentInterval == 0
    ensures Paced(c, ProcessQueue(c, s, now))
  {
    var (throttled, t) := IsThrottled(c, s, now);
    if throttled {
      assert Recent(ProcessQueue(c, s, now)) == Recent(s);
    } else {
      assert IntervalOver(c, s, now) ==> Recent(t) == [];
      DrainWithinRoom(c, t, now);
      DrainIsExhaustive(c, t, now);
    }
  }

  lemma SubmitPaced(c: Config, s: State, id: Id, now: int)
    requires c.enableThrottling && Capped(c, s) && Paced(c, s)
    ensures Paced(c, Step(c, s, Submit(id, now)))
  {
    var t := s.(queue := s.queue + [id], submitted := s.submitted + [id],
                armed := if c.queueTimeout != 0 then s.armed + {id} else s.armed);
    assert Recent(t) == Recent(s);
    ProcessPaced(c, t, now);
  }

  lemma CompletePaced(c: Config, s: State, id: Id, ok: bool, now: int)
    requires c.enableThrottling && Capped(c, s) && Paced(c, s) && id in s.active
    ensures Paced(c, Step(c, s, Complete(id, ok, now)))
  {
    var t := Finish(s, id, ok);
    assert Recent(t) == Recent(s);
    ProcessPaced(c, t, now);
  }

  lemma StepPaced(c: Config, s: State, e: Event)
    requires c.enableThrottling && Invariant(c, s) && Paced(c, s) && Enabled(s, e)
    ensures Paced(c, Step(c, s, e))
  {
    match e
    case Submit(id, now) => SubmitPaced(c, s, id, now);
    case Complete(id, ok, now) => CompletePaced(c, s, id, ok, now);
    case QueueTimeout(id) =>
      RemoveShrinks(s.queue, id);
      assert Recent(Step(c, s, e)) == Recent(s);
    case TimerFires(now) =>
      assert Recent(s.(throttleTimer := None)) == Recent(s);
      ProcessPaced(c, s.(throttleTimer := None), now);
    case Clear => assert Recent(Step(c, s, e)) == Recent(s);
    case ReadStatus(now) =>
      assert Recent(Step(c, s, e)) == if IntervalOver(c, s, now) then [] else Recent(s);
  }

  lemma {:induction false} RunPaced(c: Config, s: State, events: seq<Event>)
    requires c.enableThrottling && Invariant(c, s) && Paced(c, s) && Legal(c, s, events)
    ensures Paced(c, After(c, s, events))
    decreases |events|
  {
    if events == [] {
    } else {
      StepKeeps(c, s, events[0]);
      StepPaced(c, s, events[0]);
      RunPaced(c, Step(c, s, events[0]), events[1..]);
    }
  }

  /** In every run with throttling on, the counter is the number of starts since the last reset, and those of them that
      take a slot are at most the rate or the cap, whichever is larger; so are all of them when no request function
      throws synchronously. */
  lemma BurstBound(c: Config, start: int, events: seq<Event>)
    requires c.enableThrottling && Legal(c, Init(start), events)
    ensures var burst := Burst(c, start, events);
            && After(c, Init(start), events).requestsInCurrentInterval == |burst|
            && Normals(c, burst) <= Max(0, Max(c.throttleRate, c.maxConcurrentRequests))
            && ((forall id :: !c.throwsSync(id)) ==> |burst| <= Max(0, Max(c.throttleRate, c.maxConcurrentRequests)))
  {
    RunPaced(c, Init(start), events);
    AllNormal(c, Burst(c, start, events));
  }
}
