/**
 * The expiring cache of account sequence numbers (src/client/stellarClient.ts), with its offline fallback: when the
 * network fails, an unexpired number is incremented, stored again and used.
 */
module SequenceCache {
  import opened Common

  datatype Cached = Cached(sequence: int, timestamp: int)
  type Contents = map<string, Cached>

  /** What happens to a client: an account request that the network answers or fails, the clearing of one account or
      of all, and a cleanup. Times are those at which the outcome is known. */
  datatype Event =
    | Fetched(key: string, sequence: int, now: int)
    | FetchFailed(key: string, now: int)
    | Cleared(target: Option<string>)
    | Cleaned(now: int)

  predicate Expired(ttl: int, cached: Cached, now: int) {
    now - cached.timestamp > ttl
  }

  /** No key, or an empty one, clears every account. */
  predicate Clears(target: Option<string>, key: string) {
    target.None? || target.value == "" || target.value == key
  }

  class Cache {
    const ttl: int
    var contents: Contents

    constructor (ttl: int)
      ensures this.ttl == ttl && contents == map[]
    {
      this.ttl := ttl;
      contents := map[];
    }

    /** `reply` is the sequence number from the network; None stands for a failure or a timeout, and in the result
        for the error that is thrown. */
    method GetAccountWithCache(key: string, reply: Option<int>, now: int) returns (sequence: Option<int>)
      modifies this
      ensures var event := if reply.Some? then Fetched(key, reply.value, now) else FetchFailed(key, now);
              contents == Step(ttl, old(contents), event) && sequence == Result(ttl, old(contents), event)
    {
      if reply.Some? {
        contents := contents[key := Cached(reply.value, now)];
        return reply;
      }
      var cached := GetCachedSequence(key, now);
      if cached.Some? {
        var newSequence := cached.value.sequence + 1;
        contents := contents[key := Cached(newSequence, now)];
        return Some(newSequence);
      }
      return None;
    }

    method GetCachedSequence(key: string, now: int) returns (cached: Option<Cached>)
      modifies this
      ensures cached == Fresh(ttl, old(contents), key, now)
      ensures contents == if cached.None? then old(contents) - {key} else old(contents)
    {
      if key !in contents {
        assert contents - {key} == contents;
        return None;
      }
      if Expired(ttl, contents[key], now) {
        contents := contents - {key};
        return None;
      }
      return Some(contents[key]);
    }

    method ClearCache(target: Option<string>)
      modifies this
      ensures contents == Step(ttl, old(contents), Cleared(target))
    {
      if target.Some? && target.value != "" {
        contents := contents - {target.value};
      } else {
        contents := map[];
      }
    }

    /** Whether an error names a bad sequence number is decided by matching its text. */
    method HandleSubmissionError(namesBadSequence: bool, target: Option<string>) returns (cleared: bool)
      modifies this
      ensures cleared == namesBadSequence
      ensures contents == if cleared then Step(ttl, old(contents), Cleared(target)) else old(contents)
    {
      if namesBadSequence {
        ClearCache(target);
      }
      return namesBadSequence;
    }

    method CleanupExpiredCache(now: int) returns (removed: nat)
      modifies this
      ensures contents == Step(ttl, old(contents), Cleaned(now))
      ensures removed == |old(contents)| - |contents|
    {
      removed := 0;
      var unvisited := contents.Keys;
      while unvisited != {}
        invariant unvisited <= contents.Keys <= old(contents).Keys
        invariant forall k :: k in contents ==> contents[k] == old(contents)[k]
        invariant forall k :: k in old(contents) && k !in unvisited ==> (k in contents <==> !Expired(ttl, old(contents)[k], now))
        invariant removed == |old(contents)| - |contents|
        decreases |unvisited|
      {
        var key :| key in unvisited;
        if Expired(ttl, contents[key], now) {
          RemoveOne(contents, key);
          contents := contents - {key};
          removed := removed + 1;
        }
        unvisited := unvisited - {key};
      }
    }
  }

  lemma RemoveOne(m: Contents, key: string)
    requires key in m
    ensures |m - {key}| == |m| - 1
  {
  }

  // ---------------------------------------------------------------------------
  // Steps
  // ---------------------------------------------------------------------------

  function Fresh(ttl: int, m: Contents, key: string, now: int): Option<Cached> {
    if key in m && !Expired(ttl, m[key], now) then Some(m[key]) else None
  }

  function Step(ttl: int, m: Contents, event: Event): Contents {
    match event
    case Fetched(key, sequence, now) => m[key := Cached(sequence, now)]
    case FetchFailed(key, now) =>
      (match Fresh(ttl, m, key, now)
       case Some(cached) => m[key := Cached(cached.sequence + 1, now)]
       case None => m - {key})
    case Cleared(target) => if target.Some? && target.value != "" then m - {target.value} else map[]
    case Cleaned(now) => map k | k in m && !Expired(ttl, m[k], now) :: m[k]
  }

  /** The sequence number that an account request ends with. */
  function Result(ttl: int, m: Contents, event: Event): Option<int> {
    match event
    case Fetched(_, sequence, _) => Some(sequence)
    case FetchFailed(key, now) =>
      (match Fresh(ttl, m, key, now) case Some(cached) => Some(cached.sequence + 1) case None => None)
    case _ => None
  }

  function Run(ttl: int, history: seq<Event>): Contents {
    if history == [] then map[] else Step(ttl, Run(ttl, history[..|history| - 1]), history[|history| - 1])
  }

  // ---------------------------------------------------------------------------
  // The last write, if it is young enough
  // ---------------------------------------------------------------------------

  /** The last write for `key` since it was cleared. Cleanups and expiry leave it alone. */
  function LastWrite(ttl: int, history: seq<Event>, key: string): Option<Cached> {
    if history == [] then None
    else
      var before := LastWrite(ttl, history[..|history| - 1], key);
      match history[|history| - 1]
      case Fetched(k, sequence, now) => if k == key then Some(Cached(sequence, now)) else before
      case FetchFailed(k, now) =>
        if k == key && before.Some? && !Expired(ttl, before.value, now) then Some(Cached(before.value.sequence + 1, now))
        else before
      case Cleared(target) => if Clears(target, key) then None else before
      case Cleaned(_) => before
  }

  function Young(ttl: int, write: Option<Cached>, now: int): Option<Cached> {
    if write.Some? && !Expired(ttl, write.value, now) then write else None
  }

  /** The clock never runs back, up to `now`. */
  ghost predicate Monotone(history: seq<Event>, now: int) {
    history == [] ||
    var front, last := history[..|history| - 1], history[|history| - 1];
    if last.Cleared? then Monotone(front, now) else last.now <= now && Monotone(front, last.now)
  }

  /** What is cached is the last write, and a last write that is not cached is too old. */
  ghost predicate Agrees(ttl: int, m: Contents, write: Option<Cached>, key: string, now: int) {
    if key in m then write == Some(m[key]) else write.None? || Expired(ttl, write.value, now)
  }

  lemma {:induction false} RunAgrees(ttl: int, history: seq<Event>, key: string, now: int)
    requires Monotone(history, now)
    ensures Agrees(ttl, Run(ttl, history), LastWrite(ttl, history, key), key, now)
  {
    if history == [] {
    } else {
      var front, last := history[..|history| - 1], history[|history| - 1];
      RunAgrees(ttl, front, key, if last.Cleared? then now else last.now);
    }
  }

  /** Under a clock that never runs back, however cleanups interleave, a request for a key finds exactly the last
      write for it, if its age is at most the time to live, and a failed fetch ends with the number after it. */
  lemma CacheIsLastWrite(ttl: int, history: seq<Event>, key: string, now: int)
    requires Monotone(history, now)
    ensures var write := Young(ttl, LastWrite(ttl, history, key), now);
            && Fresh(ttl, Run(ttl, history), key, now) == write
            && Result(ttl, Run(ttl, history), FetchFailed(key, now))
            == (match write case Some(cached) => Some(cached.sequence + 1) case None => None)
  {
    RunAgrees(ttl, history, key, now);
  }

  // ---------------------------------------------------------------------------
  // Offline numbers
  // ---------------------------------------------------------------------------

  /** The results of the failed fetches for `key`. */
  function Fallbacks(ttl: int, m: Contents, events: seq<Event>, key: string): seq<Option<int>>
    decreases |events|
  {
    if events == [] then []
    else
      var rest := Fallbacks(ttl, Step(ttl, m, events[0]), events[1..], key);
      if events[0].FetchFailed? && events[0].key == key then [Result(ttl, m, events[0])] + rest else rest
  }

  /** No successful fetch and no clearing for `key`. */
  predicate Offline(events: seq<Event>, key: string) {
    forall i :: 0 <= i < |events| ==>
      && !(events[i].Fetched? && events[i].key == key)
      && !(events[i].Cleared? && Clears(events[i].target, key))
  }

  /** Each use of `key` comes within the time to live of the use before it, and so does each cleanup. */
  ghost predicate InTime(ttl: int, events: seq<Event>, key: string, used: int)
    decreases |events|
  {
    events == [] ||
    match events[0]
    case FetchFailed(k, now) => if k == key then now - used <= ttl && InTime(ttl, events[1..], key, now) else InTime(ttl, events[1..], key, used)
    case Cleaned(now) => now - used <= ttl && InTime(ttl, events[1..], key, used)
    case _ => InTime(ttl, events[1..], key, used)
  }

  /** `first`, `first + 1` and so on, and once an error only errors. */
  ghost predicate CountsUp(results: seq<Option<int>>, first: int) {
    results == []
    || (if results[0].None? then AllErrors(results[1..]) else results[0].value == first && CountsUp(results[1..], first + 1))
  }

  ghost predicate AllErrors(results: seq<Option<int>>) {
    results == [] || (results[0].None? && AllErrors(results[1..]))
  }

  lemma {:induction false} GoneStaysGone(ttl: int, m: Contents, events: seq<Event>, key: string)
    requires key !in m && Offline(events, key)
    ensures AllErrors(Fallbacks(ttl, m, events, key))
    decreases |events|
  {
    if events == [] {
    } else {
      var next := Step(ttl, m, events[0]);
      assert Offline(events[1..], key);
      assert key !in next by {
        assert Offline(events, key) && events[0] == events[0];
      }
      GoneStaysGone(ttl, next, events[1..], key);
      ConsErrors(Fallbacks(ttl, next, events[1..], key));
    }
  }

  lemma ConsErrors(rest: seq<Option<int>>)
    requires AllErrors(rest)
    ensures AllErrors([None] + rest) && forall first :: CountsUp([None] + rest, first)
  {
  }

  lemma ConsCounts(first: int, rest: seq<Option<int>>)
    requires CountsUp(rest, first + 1)
    ensures CountsUp([Some(first)] + rest, first)
  {
  }

  lemma ErrorsCount(results: seq<Option<int>>, first: int)
    requires AllErrors(results)
    ensures CountsUp(results, first)
  {
  }

  /** Between two successful fetches and clearings for a key, the offline numbers go up by one without a gap or a
      repeat until the entry expires, and after that every request fails; whatever else happens in between. */
  lemma {:induction false} OfflineCountsUp(ttl: int, m: Contents, events: seq<Event>, key: string)
    requires key in m && Offline(events, key)
    ensures CountsUp(Fallbacks(ttl, m, events, key), m[key].sequence + 1)
    decreases |events|
  {
    if events == [] {
    } else {
      var next := Step(ttl, m, events[0]);
      var rest := Fallbacks(ttl, next, events[1..], key);
      assert Offline(events[1..], key);
      assert !(events[0].Fetched? && events[0].key == key) && !(events[0].Cleared? && Clears(events[0].target, key));
      if key in next {
        OfflineCountsUp(ttl, next, events[1..], key);
        if events[0].FetchFailed? && events[0].key == key {
          ConsCounts(m[key].sequence + 1, rest);
        }
      } else {
        GoneStaysGone(ttl, next, events[1..], key);
        ErrorsCount(rest, m[key].sequence + 1);
        ConsErrors(rest);
      }
    }
  }

  /** Used in time, an entry never expires: the n-th offline number is exactly n above the fetched one. */
  lemma {:induction false} InTimeNeverFails(ttl: int, m: Contents, events: seq<Event>, key: string, n: nat)
    requires key in m && Offline(events, key) && InTime(ttl, events, key, m[key].timestamp)
    requires n < |Fallbacks(ttl, m, events, key)|
    ensures Fallbacks(ttl, m, events, key)[n] == Some(m[key].sequence + 1 + n)
    decreases |events|
  {
    var next := Step(ttl, m, events[0]);
    assert Offline(events[1..], key);
    assert !(events[0].Fetched? && events[0].key == key) && !(events[0].Cleared? && Clears(events[0].target, key));
    if events[0].FetchFailed? && events[0].key == key {
      if n > 0 {
        InTimeNeverFails(ttl, next, events[1..], key, n - 1);
      }
    } else {
      InTimeNeverFails(ttl, next, events[1..], key, n);
    }
  }

  /** A fetched number is what the request ends with, and the offline numbers that follow in time go on from it. */
  lemma OnlineThenOffline(ttl: int, m: Contents, key: string, sequence: int, now: int, events: seq<Event>, n: nat)
    requires Offline(events, key) && InTime(ttl, events, key, now)
    ensures Result(ttl, m, Fetched(key, sequence, now)) == Some(sequence)
    ensures var rest := Fallbacks(ttl, Step(ttl, m, Fetched(key, sequence, now)), events, key);
            n < |rest| ==> rest[n] == Some(sequence + 1 + n)
  {
    var next := Step(ttl, m, Fetched(key, sequence, now));
    if n < |Fallbacks(ttl, next, events, key)| {
      InTimeNeverFails(ttl, next, events, key, n);
    }
  }
}
