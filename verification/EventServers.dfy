/**
 * Servers that cut their log of events into pages, described without the client: what the fetch of EventFetcher.dfy
 * gives on them.
 */
module EventServers {
  import opened Common
  import opened EventFetcher

  /** Every entry of the log has a token of its own, which stands for the place behind it. */
  ghost predicate OwnTokens(log: seq<Event>, positions: map<string, nat>) {
    forall i :: 0 <= i < |log| ==> OwnToken(log[i], positions, i)
  }

  ghost predicate OwnToken(e: Event, positions: map<string, nat>, i: nat) {
    e.pagingToken.Some? && e.pagingToken.value != "" && e.pagingToken.value in positions && positions[e.pagingToken.value] == i + 1
  }

  ghost predicate GivesToken(token: Option<string>) {
    token.Some? && token.value != ""
  }

  /** A page holds the range's events between two places of the log. It may say where it ends; if it does not, an empty
      page is the last one. */
  ghost predicate Cuts(reply: Reply, log: seq<Event>, positions: map<string, nat>, start: int, end: int, from: nat, to: nat) {
    && reply.Page? && from <= to <= |log|
    && reply.events == InRange(log[from..to], start, end)
    && if GivesToken(reply.pagingToken)
       then && reply.pagingToken.value in positions && positions[reply.pagingToken.value] == to
            && (to == from ==> InRange(log[from..], start, end) == [])
       else reply.events == [] ==> InRange(log[from..], start, end) == []
  }

  ghost predicate CutsSomewhere(reply: Reply, log: seq<Event>, positions: map<string, nat>, start: int, end: int, from: nat) {
    exists to: nat :: Cuts(reply, log, positions, start, end, from, to)
  }

  /** All tokens in a reply are known ones. */
  ghost predicate KnownTokens(reply: Reply, positions: map<string, nat>) {
    reply.Page? ==>
      && (GivesToken(reply.pagingToken) ==> reply.pagingToken.value in positions)
      && forall e :: e in reply.events && GivesToken(e.pagingToken) ==> e.pagingToken.value in positions
  }

  ghost predicate HoldsLog(server: Server, log: seq<Event>, positions: map<string, nat>) {
    && SortedByLedger(log) && OwnTokens(log, positions)
    && (forall t :: t in positions ==> positions[t] <= |log|)
    && forall start, end, cursor :: KnownTokens(server(start, end, cursor), positions)
  }

  /** In the ranges inside [low, high] the server pages through its log, or refuses the range. */
  ghost predicate LogServer(server: Server, log: seq<Event>, positions: map<string, nat>, refuses: (int, int) -> bool,
                            low: int, high: int)
  {
    && HoldsLog(server, log, positions)
    && forall start, end, cursor | low <= start <= end <= high && KnownCursor(positions, cursor) ::
         var reply := server(start, end, cursor);
         if refuses(start, end) then reply == Raised(TooLarge)
         else CutsSomewhere(reply, log, positions, start, end, From(positions, cursor))
  }

  /** The last event of a page is the last of the range's events before the place where the page ends. */
  lemma {:induction false} LastInRange(log: seq<Event>, start: int, end: int) returns (i: nat)
    requires InRange(log, start, end) != []
    ensures i < |log| && log[i] == InRange(log, start, end)[|InRange(log, start, end)| - 1]
    ensures InRange(log[..i + 1], start, end) == InRange(log, start, end)
  {
    if InRange(log[1..], start, end) == [] {
      i := 0;
      assert log[..1] == [log[0]] && [log[0]][1..] == [];
    } else {
      var j := LastInRange(log[1..], start, end);
      i := j + 1;
      assert log[..i + 1][1..] == log[1..][..j + 1];
    }
  }

  lemma SilentPage(reply: Reply, log: seq<Event>, positions: map<string, nat>, start: int, end: int,
                   cursor: Option<string>, to: nat)
    requires OwnTokens(log, positions) && forall t :: t in positions ==> positions[t] <= |log|
    requires Cuts(reply, log, positions, start, end, From(positions, cursor), to)
    requires !GivesToken(reply.pagingToken) && reply.events != []
    ensures AnswersRequest(reply, log, positions, start, end, cursor)
  {
    var from := From(positions, cursor);
    var i := LastInRange(log[from..to], start, end);
    assert log[from..to][i] == log[from + i] && log[from..to][..i + 1] == log[from..from + i + 1];
    assert OwnToken(log[from + i], positions, from + i);
  }

  /** The cursor that the client takes from a page leads on to where the page ended. */
  lemma CutAnswers(reply: Reply, log: seq<Event>, positions: map<string, nat>, start: int, end: int, cursor: Option<string>)
    requires OwnTokens(log, positions) && forall t :: t in positions ==> positions[t] <= |log|
    requires CutsSomewhere(reply, log, positions, start, end, From(positions, cursor))
    ensures AnswersRequest(reply, log, positions, start, end, cursor)
  {
    var to: nat :| Cuts(reply, log, positions, start, end, From(positions, cursor), to);
    if !GivesToken(reply.pagingToken) && reply.events != [] {
      SilentPage(reply, log, positions, start, end, cursor, to);
    }
  }

  lemma TokensKnown(server: Server, log: seq<Event>, positions: map<string, nat>)
    requires HoldsLog(server, log, positions)
    ensures TokensWithin(server, positions.Keys)
  {
    forall start, end, cursor
      ensures var reply := server(start, end, cursor);
              reply.Page? ==>
                var token := ExtractPagingToken(reply.events, reply.pagingToken);
                token.Some? ==> token.value in positions.Keys
    {
      var reply := server(start, end, cursor);
      assert KnownTokens(reply, positions);
      if reply.Page? && reply.events != [] {
        assert reply.events[|reply.events| - 1] in reply.events;
      }
    }
  }

  lemma LogServerBehaves(server: Server, log: seq<Event>, positions: map<string, nat>, refuses: (int, int) -> bool,
                         low: int, high: int)
    requires LogServer(server, log, positions, refuses, low, high)
    ensures WellBehaved(server, log, positions, refuses, low, high)
  {
    TokensKnown(server, log, positions);
    forall start, end, cursor | low <= start <= end <= high && KnownCursor(positions, cursor)
      ensures Serves(server, log, positions, refuses, start, end, cursor)
    {
      if !refuses(start, end) {
        CutAnswers(server(start, end, cursor), log, positions, start, end, cursor);
      }
    }
  }

  /** A server that pages through its log, and may refuse or fail any request at any time. */
  lemma LogServerIsHonest(server: Server, log: seq<Event>, positions: map<string, nat>)
    requires HoldsLog(server, log, positions)
    requires forall start, end, cursor | start <= end && KnownCursor(positions, cursor) ::
               var reply := server(start, end, cursor);
               reply.Raised? || CutsSomewhere(reply, log, positions, start, end, From(positions, cursor))
    ensures Honest(server, log, positions)
  {
    TokensKnown(server, log, positions);
    forall start, end, cursor | start <= end && KnownCursor(positions, cursor)
      ensures AnswersOrRaises(server, log, positions, start, end, cursor)
    {
      if server(start, end, cursor).Page? {
        CutAnswers(server(start, end, cursor), log, positions, start, end, cursor);
      }
    }
  }

  /** A fetch without a cursor returns exactly the events of its range, whatever the pages and bisections, and throws
      exactly when bisection runs into a refused single ledger. */
  lemma LogFetchIsComplete(server: Server, log: seq<Event>, positions: map<string, nat>, refuses: (int, int) -> bool,
                           start: int, end: int)
    requires LogServer(server, log, positions, refuses, start, end) && start <= end
    ensures TokensWithin(server, positions.Keys)
    ensures Fetch(server, start, end, true, None, positions.Keys).Fetched? <==> Splittable(refuses, start, end)
    ensures Splittable(refuses, start, end) ==>
              Fetch(server, start, end, true, None, positions.Keys).events == InRange(log, start, end)
  {
    LogServerBehaves(server, log, positions, refuses, start, end);
    FetchIsComplete(server, log, positions, refuses, start, end);
  }

  /** With `fetchAll` off, the caller gets one page and a token with which to go on: the page and what lies behind the
      token are all there is; without a token the page is all there is. */
  lemma PageAndRest(server: Server, log: seq<Event>, positions: map<string, nat>, refuses: (int, int) -> bool,
                    start: int, end: int, cursor: Option<string>)
    requires LogServer(server, log, positions, refuses, start, end) && start <= end && KnownCursor(positions, cursor)
    requires !refuses(start, LeftEnd(refuses, start, end))
    ensures TokensWithin(server, positions.Keys)
    ensures var r, left := Fetch(server, start, end, false, cursor, positions.Keys), LeftEnd(refuses, start, end);
            && r.Fetched? && KnownCursor(positions, r.pagingToken)
            && InRange(log[From(positions, cursor)..], start, left)
            == r.events + if r.pagingToken.Some? then InRange(log[positions[r.pagingToken.value]..], start, left) else []
  {
    LogServerBehaves(server, log, positions, refuses, start, end);
    SinglePageFetch(server, log, positions, refuses, start, end, cursor);
    LeftEndWithin(refuses, start, end);
    var left := LeftEnd(refuses, start, end);
    assert Serves(server, log, positions, refuses, start, left, cursor);
    var r := Fetch(server, start, end, false, cursor, positions.Keys);
    if r.pagingToken.Some? {
      InRangeBetween(log, From(positions, cursor), positions[r.pagingToken.value], start, left);
    } else {
      NothingAfter(r.events);
    }
  }

  // ---------------------------------------------------------------------------
  // The token that comes back
  // ---------------------------------------------------------------------------

  /** The ranges that bisection ends in, from left to right. */
  function Leaves(refuses: (int, int) -> bool, start: int, end: int): (leaves: seq<(int, int)>)
    ensures leaves != []
    decreases Width(start, end)
  {
    if refuses(start, end) && start < end
    then Leaves(refuses, start, (start + end) / 2) + Leaves(refuses, (start + end) / 2 + 1, end)
    else [(start, end)]
  }

  function TokenOf(r: FetchResult): Option<string> {
    if r.Fetched? then r.pagingToken else None
  }

  /** The tokens that the fetches of these ranges end with; only the first one starts from the cursor. */
  function TokensOf(server: Server, ranges: seq<(int, int)>, cursor: Option<string>, ghost tokens: set<string>): seq<Option<string>>
    requires TokensWithin(server, tokens)
  {
    if ranges == [] then []
    else [TokenOf(Fetch(server, ranges[0].0, ranges[0].1, true, cursor, tokens))] + TokensOf(server, ranges[1..], None, tokens)
  }

  /** The last token there is. */
  function LastGiven(given: seq<Option<string>>): Option<string> {
    if given == [] then None
    else if given[|given| - 1].Some? then given[|given| - 1]
    else LastGiven(given[..|given| - 1])
  }

  lemma {:induction false} TokensOfJoined(server: Server, a: seq<(int, int)>, b: seq<(int, int)>, cursor: Option<string>,
                                          tokens: set<string>)
    requires TokensWithin(server, tokens) && a != []
    ensures TokensOf(server, a + b, cursor, tokens) == TokensOf(server, a, cursor, tokens) + TokensOf(server, b, None, tokens)
  {
    assert (a + b)[1..] == a[1..] + b;
    var rest := TokensOf(server, b, None, tokens);
    if a[1..] == [] {
      assert a[1..] + b == b;
    } else {
      TokensOfJoined(server, a[1..], b, None, tokens);
      Assoc([TokenOf(Fetch(server, a[0].0, a[0].1, true, cursor, tokens))], TokensOf(server, a[1..], None, tokens), rest);
    }
  }

  lemma {:induction false} LastGivenJoined(a: seq<Option<string>>, b: seq<Option<string>>)
    ensures LastGiven(a + b) == if LastGiven(b).Some? then LastGiven(b) else LastGiven(a)
  {
    if b == [] {
      assert a + b == a;
    } else {
      LastGivenJoined(a, b[..|b| - 1]);
      assert (a + b)[..|a + b| - 1] == a + b[..|b| - 1];
    }
  }

  lemma JoinGives(first: FetchResult, second: FetchResult, a: seq<Option<string>>, b: seq<Option<string>>)
    requires first.Fetched? && first.pagingToken == LastGiven(a)
    requires second.Fetched? && second.pagingToken == LastGiven(b)
    ensures Join(first, second).Fetched? && Join(first, second).pagingToken == LastGiven(a + b)
  {
    LastGivenJoined(a, b);
  }

  ghost predicate EndsWith(r: FetchResult, given: seq<Option<string>>) {
    r.Fetched? && r.pagingToken == LastGiven(given)
  }

  lemma HalvesEndWith(server: Server, log: seq<Event>, positions: map<string, nat>, refuses: (int, int) -> bool,
                      start: int, end: int, cursor: Option<string>, a: seq<(int, int)>, b: seq<(int, int)>)
    requires WellBehaved(server, log, positions, refuses, start, end) && KnownCursor(positions, cursor)
    requires start < end && refuses(start, end) && a != []
    requires EndsWith(Fetch(server, start, (start + end) / 2, true, cursor, positions.Keys),
                      TokensOf(server, a, cursor, positions.Keys))
    requires EndsWith(Fetch(server, (start + end) / 2 + 1, end, true, None, positions.Keys),
                      TokensOf(server, b, None, positions.Keys))
    ensures EndsWith(Fetch(server, start, end, true, cursor, positions.Keys), TokensOf(server, a + b, cursor, positions.Keys))
  {
    RefusedFetch(server, log, positions, refuses, start, end, cursor);
    TokensOfJoined(server, a, b, cursor, positions.Keys);
    JoinGives(Fetch(server, start, (start + end) / 2, true, cursor, positions.Keys),
              Fetch(server, (start + end) / 2 + 1, end, true, None, positions.Keys),
              TokensOf(server, a, cursor, positions.Keys), TokensOf(server, b, None, positions.Keys));
  }

  lemma OneLeaf(server: Server, log: seq<Event>, positions: map<string, nat>, refuses: (int, int) -> bool,
                start: int, end: int, cursor: Option<string>)
    requires WellBehaved(server, log, positions, refuses, start, end)
    requires start <= end && KnownCursor(positions, cursor) && !refuses(start, end)
    ensures EndsWith(Fetch(server, start, end, true, cursor, positions.Keys), TokensOf(server, [(start, end)], cursor, positions.Keys))
  {
    AcceptedRange(server, log, positions, refuses, start, end, cursor);
    assert [(start, end)][1..] == [];
    LastGivenOne(TokenOf(Fetch(server, start, end, true, cursor, positions.Keys)));
  }

  /** A fetch ends with the token of the last of the accepted ranges that gave one. */
  lemma {:induction false} LastTokenComesBack(
      server: Server, log: seq<Event>, positions: map<string, nat>, refuses: (int, int) -> bool,
      start: int, end: int, cursor: Option<string>)
    requires WellBehaved(server, log, positions, refuses, start, end)
    requires start <= end && KnownCursor(positions, cursor) && Splittable(refuses, start, end)
    ensures EndsWith(Fetch(server, start, end, true, cursor, positions.Keys),
                     TokensOf(server, Leaves(refuses, start, end), cursor, positions.Keys))
    decreases end - start
  {
    if refuses(start, end) {
      var midpoint := (start + end) / 2;
      Narrower(server, log, positions, refuses, start, end, start, midpoint);
      Narrower(server, log, positions, refuses, start, end, midpoint + 1, end);
      LastTokenComesBack(server, log, positions, refuses, start, midpoint, cursor);
      LastTokenComesBack(server, log, positions, refuses, midpoint + 1, end, None);
      HalvesEndWith(server, log, positions, refuses, start, end, cursor,
                    Leaves(refuses, start, midpoint), Leaves(refuses, midpoint + 1, end));
    } else {
      OneLeaf(server, log, positions, refuses, start, end, cursor);
    }
  }

  lemma LastGivenOne(token: Option<string>)
    ensures LastGiven([token] + []) == token
  {
  }

  // ---------------------------------------------------------------------------
  // A page of two events
  // ---------------------------------------------------------------------------

  const FIRST := Event(1, Some("a"), 10)
  const SECOND := Event(1, Some("b"), 20)
  const PLACES: map<string, nat> := map["a" := 1, "b" := 2]

  /** Both events lie in ledger 1; no reply says where it ends. */
  function WholePageServer(start: int, end: int, cursor: Option<string>): Reply {
    if !(start <= 1 <= end) || cursor == Some("b") then Page([], None)
    else if cursor == Some("a") then Page([SECOND], None)
    else Page([FIRST, SECOND], None)
  }

  /** The page that holds both events is read once, and the fetch goes on behind its last event. */
  lemma WholePageReadOnce()
    ensures TokensWithin(WholePageServer, PLACES.Keys)
    ensures Fetch(WholePageServer, 1, 1, true, None, PLACES.Keys) == Fetched([FIRST, SECOND], None)
  {
    var tokens, page := PLACES.Keys, [FIRST, SECOND];
    assert WholePageServer(1, 1, Some("b")) == Page([], None);
    assert FetchFrom(WholePageServer, 1, 1, true, Some("b"), {"b"}, page, tokens) == Fetched(page + [], None);
    assert WholePageServer(1, 1, None) == Page(page, None) && ExtractPagingToken(page, None) == Some("b");
    assert [] + page == page == page + [] && {} + {"b"} == {"b"};
    assert Fetch(WholePageServer, 1, 1, true, None, tokens)
        == FetchFrom(WholePageServer, 1, 1, true, Some("b"), {"b"}, page, tokens);
  }

  /** This server pages through its log. */
  lemma WholePageServerPages()
    ensures LogServer(WholePageServer, [FIRST, SECOND], PLACES, (a, b) => false, 1, 1)
  {
    var log := [FIRST, SECOND];
    assert log[1..] == [SECOND] && [SECOND][1..] == [] && log[2..] == [] && log[0..2] == log && log[1..2] == [SECOND];
    assert InRange([SECOND], 1, 1) == [SECOND] + [] && InRange(log, 1, 1) == [FIRST] + InRange([SECOND], 1, 1) == log;
    assert SortedByLedger([SECOND]) && OwnToken(FIRST, PLACES, 0) && OwnToken(SECOND, PLACES, 1);
    forall cursor | KnownCursor(PLACES, cursor)
      ensures CutsSomewhere(WholePageServer(1, 1, cursor), log, PLACES, 1, 1, From(PLACES, cursor))
    {
      assert cursor == None || cursor == Some("a") || cursor == Some("b");
      assert Cuts(WholePageServer(1, 1, cursor), log, PLACES, 1, 1, From(PLACES, cursor), 2);
    }
  }
}
