/**
 * Paged, self-bisecting download of contract events
 * (`fetchContractEventsRange` in src/client/stellarClient.ts).
 *
 * The RPC server is a deterministic function of (startLedger, endLedger, cursor).
 * A reply is a page of events or a raised error; the only error the client
 * treats specially is "payload too large".
 */
module EventFetcher {
  import opened Common

  datatype Event = Event(ledger: int, pagingToken: Option<string>, body: int)
  datatype RpcError = TooLarge | Other(message: string)
  datatype Reply = Page(events: seq<Event>, pagingToken: Option<string>) | Raised(error: RpcError)
  datatype FetchResult = Fetched(events: seq<Event>, pagingToken: Option<string>) | Threw(error: RpcError)

  type Server = (int, int, Option<string>) -> Reply

  function NonEmpty(token: Option<string>): Option<string> {
    if token.Some? && token.value != "" then token else None
  }

  /** The response's own token if it has one, otherwise the token of the last event. */
  function ExtractPagingToken(events: seq<Event>, responseToken: Option<string>): Option<string> {
    if NonEmpty(responseToken).Some? then responseToken
    else if events != [] then NonEmpty(events[|events| - 1].pagingToken)
    else None
  }

  function Width(start: int, end: int): nat {
    if start < end then end - start else 0
  }

  /** Every token the server ever hands out belongs to a finite set; without this paging need not stop. */
  ghost predicate TokensWithin(server: Server, tokens: set<string>) {
    forall start, end, cursor ::
      var reply := server(start, end, cursor);
      reply.Page? ==>
        var token := ExtractPagingToken(reply.events, reply.pagingToken);
        token.Some? ==> token.value in tokens
  }

  /** Two halves put together; the first one that throws wins. */
  function Join(first: FetchResult, second: FetchResult): FetchResult {
    if first.Threw? then first
    else if second.Threw? then second
    else Fetched(first.events + second.events,
                 if second.pagingToken.Some? then second.pagingToken else first.pagingToken)
  }

  /** The loop of `fetchContractEventsRange`, entered with `cursor`, the tokens seen and the events collected. */
  function FetchFrom(server: Server, start: int, end: int, fetchAll: bool,
                     cursor: Option<string>, seen: set<string>, events: seq<Event>,
                     ghost tokens: set<string>): FetchResult
    requires TokensWithin(server, tokens)
    requires seen <= tokens
    decreases Width(start, end), tokens - seen
  {
    var reply := server(start, end, cursor);
    match reply
    case Page(pageEvents, responseToken) =>
      var token := ExtractPagingToken(pageEvents, responseToken);
      if !fetchAll || token.None? || token.value in seen then Fetched(events + pageEvents, token)
      else FetchFrom(server, start, end, fetchAll, token, seen + {token.value}, events + pageEvents, tokens)
    case Raised(error) =>
      if error.TooLarge? && start < end then
        var midpoint := (start + end) / 2;
        var firstHalf := FetchFrom(server, start, midpoint, fetchAll, cursor, {}, [], tokens);
        if firstHalf.Threw? || !fetchAll then firstHalf
        else
          Join(firstHalf, FetchFrom(server, midpoint + 1, end, fetchAll, None, {}, [], tokens))
      else Threw(error)
  }

  function Fetch(server: Server, start: int, end: int, fetchAll: bool, cursor: Option<string>,
                 ghost tokens: set<string>): FetchResult
    requires TokensWithin(server, tokens)
  {
    FetchFrom(server, start, end, fetchAll, cursor, {}, [], tokens)
  }

  method FetchContractEventsRange(server: Server, start: int, end: int, fetchAll: bool,
                                  initialCursor: Option<string>, ghost tokens: set<string>)
    returns (result: FetchResult)
    requires TokensWithin(server, tokens)
    ensures result == Fetch(server, start, end, fetchAll, initialCursor, tokens)
    decreases Width(start, end)
  {
    var cursor := initialCursor;
    var events: seq<Event> := [];
    var seenPagingTokens: set<string> := {};
    while true
      invariant seenPagingTokens <= tokens
      invariant FetchFrom(server, start, end, fetchAll, cursor, seenPagingTokens, events, tokens)
             == Fetch(server, start, end, fetchAll, initialCursor, tokens)
      decreases tokens - seenPagingTokens
    {
      var reply := server(start, end, cursor);
      match reply
      case Page(pageEvents, responseToken) =>
        events := events + pageEvents;
        var pagingToken := ExtractPagingToken(pageEvents, responseToken);
        if !fetchAll || pagingToken.None? {
          return Fetched(events, pagingToken);
        }
        if pagingToken.value in seenPagingTokens {
          return Fetched(events, pagingToken);
        }
        seenPagingTokens := seenPagingTokens + {pagingToken.value};
        cursor := pagingToken;
      case Raised(error) =>
        if error.TooLarge? && start < end {
          var midpoint := (start + end) / 2;
          var firstHalf := FetchContractEventsRange(server, start, midpoint, fetchAll, cursor, tokens);
          if firstHalf.Threw? || !fetchAll {
            return firstHalf;
          }
          var secondHalf := FetchContractEventsRange(server, midpoint + 1, end, fetchAll, None, tokens);
          if secondHalf.Threw? {
            return secondHalf;
          }
          return Fetched(firstHalf.events + secondHalf.events,
                         if secondHalf.pagingToken.Some? then secondHalf.pagingToken else firstHalf.pagingToken);
        }
        return Threw(error);
    }
  }

  // ---------------------------------------------------------------------------
  // What a well-behaved server holds: one log of events, sorted by ledger.
  // ---------------------------------------------------------------------------

  ghost predicate SortedByLedger(log: seq<Event>) {
    |log| < 2 || (log[0].ledger <= log[1].ledger && SortedByLedger(log[1..]))
  }

  /** The log's events in ledgers [start, end], in log order: what the caller asked for. */
  function InRange(log: seq<Event>, start: int, end: int): seq<Event> {
    if log == [] then []
    else (if start <= log[0].ledger <= end then [log[0]] else []) + InRange(log[1..], start, end)
  }

  /** How many log entries lie at or before a cursor. */
  function From(positions: map<string, nat>, cursor: Option<string>): nat {
    if cursor.Some? && cursor.value in positions then positions[cursor.value] else 0
  }

  ghost predicate KnownCursor(positions: map<string, nat>, cursor: Option<string>) {
    cursor.Some? ==> cursor.value in positions
  }

  /** A page answers a request: the range's events from the cursor up to the returned token (or to the end),
      and a token that makes no progress means nothing is left. Pages may be of any size, also empty. */
  ghost predicate AnswersRequest(reply: Reply, log: seq<Event>, positions: map<string, nat>,
                                 start: int, end: int, cursor: Option<string>)
    requires forall t :: t in positions ==> positions[t] <= |log|
  {
    reply.Page? &&
    var from := From(positions, cursor);
    var token := ExtractPagingToken(reply.events, reply.pagingToken);
    match token
    case None => reply.events == InRange(log[from..], start, end)
    case Some(t) =>
      && t in positions
      && from <= positions[t]
      && reply.events == InRange(log[from..positions[t]], start, end)
      && (positions[t] == from ==> InRange(log[from..], start, end) == [])
  }

  /** On every range inside [low, high] the server answers from `log`, or refuses the range whatever the cursor. */
  ghost predicate WellBehaved(server: Server, log: seq<Event>, positions: map<string, nat>,
                              refuses: (int, int) -> bool, low: int, high: int)
  {
    && SortedByLedger(log)
    && (forall t :: t in positions ==> positions[t] <= |log|)
    && TokensWithin(server, positions.Keys)
    && (forall start, end, cursor | low <= start <= end <= high && KnownCursor(positions, cursor) ::
          Serves(server, log, positions, refuses, start, end, cursor))
  }

  ghost predicate Serves(server: Server, log: seq<Event>, positions: map<string, nat>, refuses: (int, int) -> bool,
                         start: int, end: int, cursor: Option<string>)
    requires forall t :: t in positions ==> positions[t] <= |log|
  {
    if refuses(start, end) then server(start, end, cursor) == Raised(TooLarge)
    else AnswersRequest(server(start, end, cursor), log, positions, start, end, cursor)
  }

  ghost predicate SingleLedgersAccepted(refuses: (int, int) -> bool, low: int, high: int) {
    forall ledger :: low <= ledger <= high ==> !refuses(ledger, ledger)
  }

  /** Bisection bottoms out in accepted ranges; accepting all single ledgers is enough for that. */
  predicate Splittable(refuses: (int, int) -> bool, start: int, end: int)
    decreases Width(start, end)
  {
    var midpoint := (start + end) / 2;
    || !refuses(start, end)
    || (start < end && Splittable(refuses, start, midpoint) && Splittable(refuses, midpoint + 1, end))
  }

  /** The last ledger of the leftmost accepted range that bisection reaches. */
  function LeftEnd(refuses: (int, int) -> bool, start: int, end: int): int
    decreases Width(start, end)
  {
    if refuses(start, end) && start < end then LeftEnd(refuses, start, (start + end) / 2) else end
  }

  // ---------------------------------------------------------------------------
  // Filtering a sorted log by ledger
  // ---------------------------------------------------------------------------

  lemma {:induction false} InRangeConcat(a: seq<Event>, b: seq<Event>, start: int, end: int)
    ensures InRange(a + b, start, end) == InRange(a, start, end) + InRange(b, start, end)
  {
    if a == [] {
      assert a + b == b;
    } else {
      var head := if start <= a[0].ledger <= end then [a[0]] else [];
      InRangeConcat(a[1..], b, start, end);
      assert (a + b)[1..] == a[1..] + b;
      Assoc(head, InRange(a[1..], start, end), InRange(b, start, end));
    }
  }

  lemma InRangeCut(log: seq<Event>, k: nat, start: int, end: int)
    requires k <= |log|
    ensures InRange(log, start, end) == InRange(log[..k], start, end) + InRange(log[k..], start, end)
  {
    InRangeConcat(log[..k], log[k..], start, end);
    assert log[..k] + log[k..] == log;
  }

  lemma {:induction false} InRangeNone(log: seq<Event>, start: int, end: int)
    requires forall i :: 0 <= i < |log| ==> !(start <= log[i].ledger <= end)
    ensures InRange(log, start, end) == []
  {
    if log == [] {
    } else {
      assert forall i :: 0 <= i < |log[1..]| ==> log[1..][i] == log[i + 1];
      InRangeNone(log[1..], start, end);
    }
  }

  lemma {:induction false} AfterFirst(log: seq<Event>, midpoint: int, i: nat)
    requires SortedByLedger(log) && i < |log| && midpoint < log[0].ledger
    ensures midpoint < log[i].ledger
  {
    if i == 0 {
    } else {
      AfterFirst(log[1..], midpoint, i - 1);
    }
  }

  lemma InRangeAfter(log: seq<Event>, start: int, midpoint: int)
    requires SortedByLedger(log) && log != [] && midpoint < log[0].ledger
    ensures InRange(log, start, midpoint) == []
  {
  }

  lemma NothingAfter(a: seq<Event>)
    ensures a + [] == a
  {
  }

  lemma NothingBefore(a: seq<Event>)
    ensures [] + a == a
  {
  }

  /** Bisecting a sorted log by ledger loses nothing, repeats nothing and keeps the order. */
  lemma {:induction false} InRangeBisect(log: seq<Event>, start: int, midpoint: int, end: int)
    requires SortedByLedger(log)
    requires start <= midpoint + 1 && midpoint <= end
    ensures InRange(log, start, end) == InRange(log, start, midpoint) + InRange(log, midpoint + 1, end)
  {
    if log == [] {
    } else if midpoint < log[0].ledger {
      InRangeAfter(log, start, midpoint);
      InRangeFrom(log, start, midpoint, end);
      NothingBefore(InRange(log, midpoint + 1, end));
    } else {
      InRangeBisect(log[1..], start, midpoint, end);
      Assoc(if start <= log[0].ledger then [log[0]] else [], InRange(log[1..], start, midpoint), InRange(log[1..], midpoint + 1, end));
      NothingBefore(InRange(log[1..], midpoint + 1, end));
    }
  }

  /** Once every ledger is above the midpoint, the lower bound does not matter. */
  lemma {:induction false} InRangeFrom(log: seq<Event>, start: int, midpoint: int, end: int)
    requires SortedByLedger(log) && start <= midpoint + 1 && (log != [] ==> midpoint < log[0].ledger)
    ensures InRange(log, start, end) == InRange(log, midpoint + 1, end)
  {
    if log == [] {
    } else {
      if |log| > 1 {
        AfterFirst(log, midpoint, 1);
      }
      InRangeFrom(log[1..], start, midpoint, end);
    }
  }

  // ---------------------------------------------------------------------------
  // Paging through one accepted range
  // ---------------------------------------------------------------------------

  lemma InRangeBetween(log: seq<Event>, from: nat, to: nat, start: int, end: int)
    requires from <= to <= |log|
    ensures InRange(log[from..], start, end) == InRange(log[from..to], start, end) + InRange(log[to..], start, end)
  {
    assert log[from..] == log[from..to] + log[to..];
    InRangeConcat(log[from..to], log[to..], start, end);
  }

  lemma {:induction false} PagingCollectsRest(
      server: Server, log: seq<Event>, positions: map<string, nat>, refuses: (int, int) -> bool,
      start: int, end: int, cursor: Option<string>, seen: set<string>, events: seq<Event>)
    requires WellBehaved(server, log, positions, refuses, start, end)
    requires start <= end && !refuses(start, end) && KnownCursor(positions, cursor)
    requires seen <= positions.Keys && forall t :: t in seen ==> positions[t] <= From(positions, cursor)
    ensures var r := FetchFrom(server, start, end, true, cursor, seen, events, positions.Keys);
            && r.Fetched?
            && r.events == events + InRange(log[From(positions, cursor)..], start, end)
            && (r.pagingToken.Some? ==>
                  && r.pagingToken.value in positions
                  && InRange(log[positions[r.pagingToken.value]..], start, end) == [])
    decreases positions.Keys - seen
  {
    var from := From(positions, cursor);
    var reply := server(start, end, cursor);
    assert Serves(server, log, positions, refuses, start, end, cursor);
    var token := ExtractPagingToken(reply.events, reply.pagingToken);
    if token.Some? {
      var to := positions[token.value];
      var rest := InRange(log[to..], start, end);
      InRangeBetween(log, from, to, start, end);
      if token.value !in seen {
        PagingCollectsRest(server, log, positions, refuses, start, end, token,
                           seen + {token.value}, events + reply.events);
        Assoc(events, reply.events, rest);
      }
    }
  }

  lemma AcceptedRange(server: Server, log: seq<Event>, positions: map<string, nat>, refuses: (int, int) -> bool,
                      start: int, end: int, cursor: Option<string>)
    requires WellBehaved(server, log, positions, refuses, start, end)
    requires start <= end && !refuses(start, end) && KnownCursor(positions, cursor)
    ensures var r := Fetch(server, start, end, true, cursor, positions.Keys);
            && r.Fetched?
            && r.events == InRange(log[From(positions, cursor)..], start, end)
            && (r.pagingToken.Some? ==>
                  && r.pagingToken.value in positions
                  && InRange(log[positions[r.pagingToken.value]..], start, end) == [])
  {
    PagingCollectsRest(server, log, positions, refuses, start, end, cursor, {}, []);
    var rest := InRange(log[From(positions, cursor)..], start, end);
    assert [] + rest == rest;
  }

  // ---------------------------------------------------------------------------
  // The whole fetch
  // ---------------------------------------------------------------------------

  lemma {:induction false} SingleLedgersSuffice(refuses: (int, int) -> bool, start: int, end: int)
    requires start <= end && SingleLedgersAccepted(refuses, start, end)
    ensures Splittable(refuses, start, end)
    decreases end - start
  {
    if start < end {
      SingleLedgersSuffice(refuses, start, (start + end) / 2);
      SingleLedgersSuffice(refuses, (start + end) / 2 + 1, end);
    }
  }

  /** Without a starting cursor the fetch returns exactly the range's events, whatever the nesting of bisections;
      it throws exactly when bisection runs into a single ledger that is refused. */
  lemma {:induction false} FetchIsComplete(
      server: Server, log: seq<Event>, positions: map<string, nat>, refuses: (int, int) -> bool, start: int, end: int)
    requires WellBehaved(server, log, positions, refuses, start, end) && start <= end
    ensures var r := Fetch(server, start, end, true, None, positions.Keys);
            if Splittable(refuses, start, end) then r.Fetched? && r.events == InRange(log, start, end)
            else r == Threw(TooLarge)
    decreases end - start
  {
    if !refuses(start, end) {
      AcceptedRange(server, log, positions, refuses, start, end, None);
    } else {
      RefusedFetch(server, log, positions, refuses, start, end, None);
      if start < end {
        var midpoint := (start + end) / 2;
        Narrower(server, log, positions, refuses, start, end, start, midpoint);
        Narrower(server, log, positions, refuses, start, end, midpoint + 1, end);
        FetchIsComplete(server, log, positions, refuses, start, midpoint);
        FetchIsComplete(server, log, positions, refuses, midpoint + 1, end);
        InRangeBisect(log, start, midpoint, end);
      }
    }
  }

  /** Reading [start, left] from position `from` but [left + 1, end] in full. */
  lemma RepeatedEvents(log: seq<Event>, from: nat, start: int, left: int, end: int)
    requires SortedByLedger(log) && from <= |log| && start <= left <= end
    ensures var got := InRange(log[from..], start, left) + InRange(log, left + 1, end);
            var wanted := InRange(log[from..], start, end);
            var repeated := InRange(log[..from], left + 1, end);
            |got| == |wanted| + |repeated| && (got == wanted <==> repeated == [])
  {
    var suffix := log[from..];
    SortedSuffix(log, from);
    InRangeBisect(suffix, start, left, end);
    InRangeCut(log, from, left + 1, end);
    var a, b := InRange(suffix, start, left), InRange(suffix, left + 1, end);
    var c := InRange(log[..from], left + 1, end);
    if c == [] {
      assert c + b == b;
    }
  }

  lemma {:induction false} SortedSuffix(log: seq<Event>, from: nat)
    requires SortedByLedger(log) && from <= |log|
    ensures SortedByLedger(log[from..])
  {
    if from == 0 {
    } else {
      SortedSuffix(log[1..], from - 1);
      assert log[1..][from - 1..] == log[from..];
    }
  }

  /** [start, left] read from position `from`, and [left + 1, end] in full. */
  ghost predicate Resumed(r: FetchResult, log: seq<Event>, from: nat, start: int, left: int, end: int)
    requires from <= |log|
  {
    r.Fetched? && r.events == InRange(log[from..], start, left) + InRange(log, left + 1, end)
  }

  /** Joining a resumed first half with a complete second half. */
  lemma ExtendRight(first: FetchResult, second: FetchResult, log: seq<Event>, from: nat,
                    start: int, left: int, midpoint: int, end: int)
    requires SortedByLedger(log) && from <= |log| && left <= midpoint <= end
    requires Resumed(first, log, from, start, left, midpoint)
    requires second.Fetched? && second.events == InRange(log, midpoint + 1, end)
    ensures Resumed(Join(first, second), log, from, start, left, end)
  {
    InRangeBisect(log, left + 1, midpoint, end);
    Assoc(InRange(log[from..], start, left), InRange(log, left + 1, midpoint), InRange(log, midpoint + 1, end));
  }

  /** A refused range is its halves joined; the pages collected before the refusal play no part. */
  lemma RefusalBisects(server: Server, start: int, end: int, cursor: Option<string>,
                       seen: set<string>, events: seq<Event>, tokens: set<string>)
    requires TokensWithin(server, tokens) && seen <= tokens
    requires server(start, end, cursor) == Raised(TooLarge)
    ensures FetchFrom(server, start, end, true, cursor, seen, events, tokens)
         == if start < end
            then Join(Fetch(server, start, (start + end) / 2, true, cursor, tokens),
                      Fetch(server, (start + end) / 2 + 1, end, true, None, tokens))
            else Threw(TooLarge)
  {
  }

  lemma RefusedFetch(
      server: Server, log: seq<Event>, positions: map<string, nat>, refuses: (int, int) -> bool,
      start: int, end: int, cursor: Option<string>)
    requires WellBehaved(server, log, positions, refuses, start, end)
    requires start <= end && refuses(start, end) && KnownCursor(positions, cursor)
    ensures Fetch(server, start, end, true, cursor, positions.Keys)
         == if start < end
            then Join(Fetch(server, start, (start + end) / 2, true, cursor, positions.Keys),
                      Fetch(server, (start + end) / 2 + 1, end, true, None, positions.Keys))
            else Threw(TooLarge)
  {
    assert Serves(server, log, positions, refuses, start, end, cursor);
    RefusalBisects(server, start, end, cursor, {}, [], positions.Keys);
  }

  lemma AcceptedFetch(
      server: Server, log: seq<Event>, positions: map<string, nat>, refuses: (int, int) -> bool,
      start: int, end: int, cursor: Option<string>)
    requires WellBehaved(server, log, positions, refuses, start, end)
    requires start <= end && !refuses(start, end) && KnownCursor(positions, cursor)
    ensures Resumed(Fetch(server, start, end, true, cursor, positions.Keys), log, From(positions, cursor), start, end, end)
  {
    AcceptedRange(server, log, positions, refuses, start, end, cursor);
    InRangeNone(log, end + 1, end);
    NothingAfter(InRange(log[From(positions, cursor)..], start, end));
  }

  lemma Narrower(
      server: Server, log: seq<Event>, positions: map<string, nat>, refuses: (int, int) -> bool,
      low: int, high: int, start: int, end: int)
    requires WellBehaved(server, log, positions, refuses, low, high) && low <= start && end <= high
    ensures WellBehaved(server, log, positions, refuses, start, end)
  {
  }

  lemma {:induction false} LeftEndWithin(refuses: (int, int) -> bool, start: int, end: int)
    requires start <= end
    ensures start <= LeftEnd(refuses, start, end) <= end
    decreases end - start
  {
    if refuses(start, end) && start < end {
      LeftEndWithin(refuses, start, (start + end) / 2);
    }
  }

  /** What a fetch resumed from `cursor` returns: only the leftmost accepted range is read from the cursor. It throws
      exactly when bisection runs into a single ledger that is refused. */
  lemma {:induction false} ResumedFetchValue(
      server: Server, log: seq<Event>, positions: map<string, nat>, refuses: (int, int) -> bool,
      start: int, end: int, cursor: Option<string>)
    requires WellBehaved(server, log, positions, refuses, start, end)
    requires start <= end && KnownCursor(positions, cursor)
    ensures var r := Fetch(server, start, end, true, cursor, positions.Keys);
            if Splittable(refuses, start, end)
            then Resumed(r, log, From(positions, cursor), start, LeftEnd(refuses, start, end), end)
            else r == Threw(TooLarge)
    decreases end - start
  {
    if !refuses(start, end) {
      AcceptedFetch(server, log, positions, refuses, start, end, cursor);
    } else {
      RefusedFetch(server, log, positions, refuses, start, end, cursor);
      if start < end {
        var midpoint := (start + end) / 2;
        Narrower(server, log, positions, refuses, start, end, start, midpoint);
        Narrower(server, log, positions, refuses, start, end, midpoint + 1, end);
        ResumedFetchValue(server, log, positions, refuses, start, midpoint, cursor);
        FetchIsComplete(server, log, positions, refuses, midpoint + 1, end);
        if Splittable(refuses, start, end) {
          LeftEndWithin(refuses, start, midpoint);
          ExtendRight(Fetch(server, start, midpoint, true, cursor, positions.Keys),
                      Fetch(server, midpoint + 1, end, true, None, positions.Keys),
                      log, From(positions, cursor), start, LeftEnd(refuses, start, midpoint), midpoint, end);
        }
      }
    }
  }

  /** A fetch resumed from a cursor re-reads exactly the events at or before the cursor in the ledgers right of
      the leftmost accepted range, so it returns "everything after the cursor" iff there are none. */
  lemma ResumedFetchExact(
      server: Server, log: seq<Event>, positions: map<string, nat>, refuses: (int, int) -> bool,
      start: int, end: int, cursor: Option<string>)
    requires WellBehaved(server, log, positions, refuses, start, end)
    requires start <= end && KnownCursor(positions, cursor)
    ensures var r := Fetch(server, start, end, true, cursor, positions.Keys);
            var from := From(positions, cursor);
            var wanted := InRange(log[from..], start, end);
            var repeated := InRange(log[..from], LeftEnd(refuses, start, end) + 1, end);
            if Splittable(refuses, start, end)
            then r.Fetched? && |r.events| == |wanted| + |repeated| && (r.events == wanted <==> repeated == [])
            else r == Threw(TooLarge)
  {
    ResumedFetchValue(server, log, positions, refuses, start, end, cursor);
    LeftEndWithin(refuses, start, end);
    RepeatedEvents(log, From(positions, cursor), start, LeftEnd(refuses, start, end), end);
  }

  /** With `fetchAll` off, the result is the first page of the leftmost range that bisection reaches, whatever is
      refused right of it. */
  lemma {:induction false} SinglePageFetch(
      server: Server, log: seq<Event>, positions: map<string, nat>, refuses: (int, int) -> bool,
      start: int, end: int, cursor: Option<string>)
    requires WellBehaved(server, log, positions, refuses, start, end)
    requires start <= end && KnownCursor(positions, cursor)
    ensures var left := LeftEnd(refuses, start, end);
            var r, page := Fetch(server, start, end, false, cursor, positions.Keys), server(start, left, cursor);
            if refuses(start, left) then r == Threw(TooLarge)
            else page.Page? && r == Fetched(page.events, ExtractPagingToken(page.events, page.pagingToken))
    decreases end - start
  {
    assert Serves(server, log, positions, refuses, start, end, cursor);
    if refuses(start, end) {
      if start < end {
        SinglePageFetch(server, log, positions, refuses, start, (start + end) / 2, cursor);
      }
    } else {
      NothingBefore(server(start, end, cursor).events);
    }
  }

  lemma DroppedLeftHalf(log: seq<Event>, from: nat, start: int, midpoint: int, end: int)
    requires SortedByLedger(log) && from <= |log| && start <= midpoint < end
    ensures InRange(log[from..], start, midpoint) + InRange(log, midpoint + 1, end) == InRange(log, start, end)
       <==> InRange(log[..from], start, midpoint) == []
  {
    InRangeBisect(log, start, midpoint, end);
    InRangeCut(log, from, start, midpoint);
    var a, b := InRange(log[..from], start, midpoint), InRange(log[from..], start, midpoint);
    var c := InRange(log, midpoint + 1, end);
    if a == [] {
      assert a + b == b;
    } else {
      assert |(a + b) + c| > |b + c|;
    }
  }

  /** A refusal that arrives while paging discards the pages collected so far and bisects from the current cursor.
      The result is still complete iff no event of the leftmost accepted range lies at or before that cursor. */
  lemma MidPagingRefusalExact(
      server: Server, log: seq<Event>, positions: map<string, nat>, refuses: (int, int) -> bool,
      start: int, end: int, token: string, seen: set<string>, events: seq<Event>)
    requires start < end && token in positions && seen <= positions.Keys
    requires WellBehaved(server, log, positions, refuses, start, (start + end) / 2)
    requires WellBehaved(server, log, positions, refuses, (start + end) / 2 + 1, end)
    requires server(start, end, Some(token)) == Raised(TooLarge)
    ensures var r := FetchFrom(server, start, end, true, Some(token), seen, events, positions.Keys);
            var midpoint := (start + end) / 2;
            if Splittable(refuses, start, midpoint) && Splittable(refuses, midpoint + 1, end)
            then r.Fetched?
                 && (r.events == InRange(log, start, end)
                     <==> InRange(log[..positions[token]], start, LeftEnd(refuses, start, midpoint)) == [])
            else r == Threw(TooLarge)
  {
    var midpoint := (start + end) / 2;
    RefusalBisects(server, start, end, Some(token), seen, events, positions.Keys);
    ResumedFetchValue(server, log, positions, refuses, start, midpoint, Some(token));
    FetchIsComplete(server, log, positions, refuses, midpoint + 1, end);
    if Splittable(refuses, start, midpoint) && Splittable(refuses, midpoint + 1, end) {
      var left := LeftEnd(refuses, start, midpoint);
      LeftEndWithin(refuses, start, midpoint);
      ExtendRight(Fetch(server, start, midpoint, true, Some(token), positions.Keys),
                  Fetch(server, midpoint + 1, end, true, None, positions.Keys),
                  log, positions[token], start, left, midpoint, end);
      DroppedLeftHalf(log, positions[token], start, left, end);
    }
  }

  // ---------------------------------------------------------------------------
  // Whatever is refused, and whenever
  // ---------------------------------------------------------------------------

  /** `a` is `b` with some elements left out. */
  ghost predicate Sub<T>(a: seq<T>, b: seq<T>) {
    a == [] || (b != [] && ((a[0] == b[0] && Sub(a[1..], b[1..])) || Sub(a, b[1..])))
  }

  lemma {:induction false} SubSelf<T>(a: seq<T>)
    ensures Sub(a, a)
  {
    if a == [] {
    } else {
      SubSelf(a[1..]);
    }
  }

  lemma {:induction false} SubCat<T>(a: seq<T>, b: seq<T>, c: seq<T>, d: seq<T>)
    requires Sub(a, b) && Sub(c, d)
    ensures Sub(a + c, b + d)
  {
    if b == [] {
      assert a + c == c && b + d == d;
    } else {
      assert (b + d)[1..] == b[1..] + d;
      if a == [] || Sub(a, b[1..]) {
        SubCat(a, b[1..], c, d);
      } else {
        SubCat(a[1..], b[1..], c, d);
        assert (a + c)[1..] == a[1..] + c;
      }
    }
  }

  /** Every page answers its request; any request at all may be refused or fail, at any cursor. */
  ghost predicate Honest(server: Server, log: seq<Event>, positions: map<string, nat>) {
    && SortedByLedger(log)
    && (forall t :: t in positions ==> positions[t] <= |log|)
    && TokensWithin(server, positions.Keys)
    && forall start, end, cursor | start <= end && KnownCursor(positions, cursor) ::
         AnswersOrRaises(server, log, positions, start, end, cursor)
  }

  ghost predicate AnswersOrRaises(server: Server, log: seq<Event>, positions: map<string, nat>,
                                  start: int, end: int, cursor: Option<string>)
    requires forall t :: t in positions ==> positions[t] <= |log|
  {
    server(start, end, cursor).Raised? || AnswersRequest(server(start, end, cursor), log, positions, start, end, cursor)
  }

  ghost predicate PartOf(r: FetchResult, log: seq<Event>, start: int, end: int) {
    r.Fetched? ==> Sub(r.events, InRange(log, start, end))
  }

  lemma WholePrefix(log: seq<Event>, to: nat, start: int, end: int, events: seq<Event>)
    requires to <= |log| && Sub(events, InRange(log[..to], start, end))
    ensures Sub(events, InRange(log, start, end))
  {
    InRangeCut(log, to, start, end);
    SubCat(events, InRange(log[..to], start, end), [], InRange(log[to..], start, end));
    NothingAfter(events);
  }

  /** A page extends what has been collected up to the cursor. */
  lemma PageExtends(log: seq<Event>, from: nat, to: nat, start: int, end: int, events: seq<Event>)
    requires from <= to <= |log| && Sub(events, InRange(log[..from], start, end))
    ensures Sub(events + InRange(log[from..to], start, end), InRange(log[..to], start, end))
  {
    var page := InRange(log[from..to], start, end);
    assert log[..to] == log[..from] + log[from..to];
    InRangeConcat(log[..from], log[from..to], start, end);
    SubSelf(page);
    SubCat(events, InRange(log[..from], start, end), page, page);
  }

  lemma PagePart(server: Server, log: seq<Event>, positions: map<string, nat>, start: int, end: int, cursor: Option<string>,
                 events: seq<Event>)
    requires Honest(server, log, positions) && start <= end && KnownCursor(positions, cursor)
    requires Sub(events, InRange(log[..From(positions, cursor)], start, end))
    requires server(start, end, cursor).Page?
    ensures var reply := server(start, end, cursor);
            var token := ExtractPagingToken(reply.events, reply.pagingToken);
            && Sub(events + reply.events, InRange(log, start, end))
            && (token.Some? ==> && token.value in positions
                                && Sub(events + reply.events, InRange(log[..positions[token.value]], start, end)))
  {
    var from, reply := From(positions, cursor), server(start, end, cursor);
    assert AnswersOrRaises(server, log, positions, start, end, cursor);
    var token := ExtractPagingToken(reply.events, reply.pagingToken);
    if token.Some? {
      var to := positions[token.value];
      PageExtends(log, from, to, start, end, events);
      WholePrefix(log, to, start, end, events + reply.events);
    } else {
      assert log[from..|log|] == log[from..] && log[..|log|] == log;
      PageExtends(log, from, |log|, start, end, events);
    }
  }

  lemma JoinPart(log: seq<Event>, start: int, midpoint: int, end: int, first: FetchResult, second: FetchResult)
    requires SortedByLedger(log) && start <= midpoint < end
    requires PartOf(first, log, start, midpoint) && PartOf(second, log, midpoint + 1, end)
    ensures PartOf(Join(first, second), log, start, end) && PartOf(first, log, start, end)
  {
    InRangeBisect(log, start, midpoint, end);
    var a, b := InRange(log, start, midpoint), InRange(log, midpoint + 1, end);
    if first.Fetched? {
      SubCat(first.events, a, [], b);
      NothingAfter(first.events);
      if second.Fetched? {
        SubCat(first.events, a, second.events, b);
      }
    }
  }

  lemma {:induction false} FetchFromPart(
      server: Server, log: seq<Event>, positions: map<string, nat>, start: int, end: int, fetchAll: bool,
      cursor: Option<string>, seen: set<string>, events: seq<Event>)
    requires Honest(server, log, positions) && start <= end && KnownCursor(positions, cursor) && seen <= positions.Keys
    requires Sub(events, InRange(log[..From(positions, cursor)], start, end))
    ensures PartOf(FetchFrom(server, start, end, fetchAll, cursor, seen, events, positions.Keys), log, start, end)
    decreases end - start, positions.Keys - seen
  {
    var reply := server(start, end, cursor);
    if reply.Page? {
      PagePart(server, log, positions, start, end, cursor, events);
      var token := ExtractPagingToken(reply.events, reply.pagingToken);
      if fetchAll && token.Some? && token.value !in seen {
        FetchFromPart(server, log, positions, start, end, fetchAll, token, seen + {token.value}, events + reply.events);
      }
    } else if reply.error.TooLarge? && start < end {
      var midpoint := (start + end) / 2;
      FetchFromPart(server, log, positions, start, midpoint, fetchAll, cursor, {}, []);
      FetchFromPart(server, log, positions, midpoint + 1, end, fetchAll, None, {}, []);
      JoinPart(log, start, midpoint, end,
               FetchFrom(server, start, midpoint, fetchAll, cursor, {}, [], positions.Keys),
               FetchFrom(server, midpoint + 1, end, fetchAll, None, {}, [], positions.Keys));
    }
  }

  /** Whatever the server refuses, and at whatever cursor, a fetch throws or returns some of the range's events, each as
      often as the log holds it at most, and in ledger order: it can lose events, but not repeat or reorder them. */
  lemma FetchNeverReorders(server: Server, log: seq<Event>, positions: map<string, nat>, start: int, end: int, fetchAll: bool,
                           cursor: Option<string>)
    requires Honest(server, log, positions) && start <= end && KnownCursor(positions, cursor)
    ensures var r := Fetch(server, start, end, fetchAll, cursor, positions.Keys);
            r.Threw? || Sub(r.events, InRange(log, start, end))
  {
    FetchFromPart(server, log, positions, start, end, fetchAll, cursor, {}, []);
  }

  // ---------------------------------------------------------------------------
  // Servers on which the result is wrong
  // ---------------------------------------------------------------------------

  const FIRST_EVENT := Event(1, Some("a"), 10)
  const SECOND_EVENT := Event(2, Some("b"), 20)
  const LOG := [FIRST_EVENT, SECOND_EVENT]
  const POSITIONS: map<string, nat> := map["a" := 1, "b" := 2]

  /** One event a page. */
  function PagedServer(start: int, end: int, cursor: Option<string>): Reply {
    if start <= 1 <= end && cursor.None? then Page([FIRST_EVENT], None)
    else if start <= 2 <= end && cursor != Some("b") then Page([SECOND_EVENT], None)
    else Page([], None)
  }

  predicate RefusesPair(start: int, end: int) {
    start == 1 && end == 2
  }

  /** The range [1, 2] is refused. */
  function NarrowServer(start: int, end: int, cursor: Option<string>): Reply {
    if RefusesPair(start, end) then Raised(TooLarge) else PagedServer(start, end, cursor)
  }

  /** The range [1, 2] is refused once a cursor is given. */
  function FlakyServer(start: int, end: int, cursor: Option<string>): Reply {
    if RefusesPair(start, end) && cursor.Some? then Raised(TooLarge) else PagedServer(start, end, cursor)
  }

  lemma NarrowServerServes(start: int, end: int, cursor: Option<string>)
    requires 1 <= start <= end <= 2 && KnownCursor(POSITIONS, cursor)
    ensures Serves(NarrowServer, LOG, POSITIONS, RefusesPair, start, end, cursor)
  {
    assert LOG[1..] == [SECOND_EVENT] && [SECOND_EVENT][1..] == [] && [FIRST_EVENT][1..] == [];
    assert InRange([SECOND_EVENT], 2, 2) == [SECOND_EVENT] + [] && InRange([SECOND_EVENT], 1, 1) == [] + [];
    assert cursor == None || cursor == Some("a") || cursor == Some("b");
    if cursor.None? {
      assert LOG[0..1] == [FIRST_EVENT] && LOG[0..2] == LOG;
      assert InRange([FIRST_EVENT], 1, 1) == [FIRST_EVENT] + [];
      assert InRange(LOG, 2, 2) == [] + InRange([SECOND_EVENT], 2, 2);
    } else if cursor == Some("a") {
      assert LOG[1..2] == [SECOND_EVENT];
    } else {
      assert LOG[2..] == [];
    }
  }

  lemma NarrowServerBehaves()
    ensures WellBehaved(NarrowServer, LOG, POSITIONS, RefusesPair, 1, 2)
  {
    assert LOG[1..] == [SECOND_EVENT];
    forall start, end, cursor | 1 <= start <= end <= 2 && KnownCursor(POSITIONS, cursor)
      ensures Serves(NarrowServer, LOG, POSITIONS, RefusesPair, start, end, cursor)
    {
      NarrowServerServes(start, end, cursor);
    }
  }

  /** A well-behaved server on which a fetch resumed after the last event returns that event again. */
  lemma ResumedFetchRepeatsEvents()
    ensures WellBehaved(NarrowServer, LOG, POSITIONS, RefusesPair, 1, 2)
    ensures InRange(LOG[POSITIONS["b"]..], 1, 2) == []
    ensures Fetch(NarrowServer, 1, 2, true, Some("b"), POSITIONS.Keys).Fetched?
    ensures Fetch(NarrowServer, 1, 2, true, Some("b"), POSITIONS.Keys).events == [SECOND_EVENT]
  {
    NarrowServerBehaves();
    ResumedFetchValue(NarrowServer, LOG, POSITIONS, RefusesPair, 1, 2, Some("b"));
    assert Splittable(RefusesPair, 1, 2) && LeftEnd(RefusesPair, 1, 2) == LeftEnd(RefusesPair, 1, 1) == 1;
    assert LOG[2..] == [] && LOG[1..] == [SECOND_EVENT] && [SECOND_EVENT][1..] == [];
    assert InRange(LOG, 2, 2) == [] + InRange([SECOND_EVENT], 2, 2) == [SECOND_EVENT];
  }

  /** The first event was downloaded, then thrown away. */
  lemma MidPagingRefusalLosesEvents()
    ensures TokensWithin(FlakyServer, {"a", "b"})
    ensures FlakyServer(1, 2, None) == Page([FIRST_EVENT], None)
    ensures Fetch(FlakyServer, 1, 2, true, None, {"a", "b"}) == Fetched([SECOND_EVENT], None)
  {
    var tokens := {"a", "b"};
    assert FetchFrom(FlakyServer, 1, 1, true, Some("a"), {}, [], tokens) == Fetched([], None);
    assert FetchFrom(FlakyServer, 2, 2, true, Some("b"), {"b"}, [SECOND_EVENT], tokens) == Fetched([SECOND_EVENT] + [], None);
    assert FetchFrom(FlakyServer, 2, 2, true, None, {}, [], tokens) == Fetched([SECOND_EVENT], None);
    assert Fetch(FlakyServer, 1, 2, true, None, tokens)
        == FetchFrom(FlakyServer, 1, 2, true, Some("a"), {"a"}, [FIRST_EVENT], tokens);
  }
}
