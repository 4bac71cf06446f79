/**
 * Registry of migration steps and breadth-first path resolution
 * (src/migrations/migrationRegistry.ts).
 */
module MigrationRegistry {
  import opened Common
  import opened Migration

  /** `path` is a chain of registered steps leading from version `from` to version `to`. */
  ghost predicate IsChain<S(!new)>(steps: seq<Step<S>>, from: string, to: string, path: seq<Step<S>>)
    decreases |path|
  {
    if path == [] then from == to
    else
      var last := path[|path| - 1];
      last in steps && last.toVersion == to && IsChain(steps, from, last.fromVersion, path[..|path| - 1])
  }

  /** The versions a chain passes through, starting with `from`. */
  function VersionAt<S(!new)>(from: string, path: seq<Step<S>>, i: nat): string
    requires i <= |path|
  {
    if i == 0 then from else path[i - 1].toVersion
  }

  ghost predicate NoVersionTwice<S(!new)>(from: string, path: seq<Step<S>>) {
    forall i, j :: 0 <= i < j <= |path| ==> VersionAt(from, path, i) != VersionAt(from, path, j)
  }

  ghost predicate Shortest<S(!new)>(steps: seq<Step<S>>, from: string, to: string, path: seq<Step<S>>) {
    IsChain(steps, from, to, path) && forall other :: IsChain(steps, from, to, other) ==> |path| <= |other|
  }

  /** The steps other than the one with this id, in order. */
  function Without<S(!new)>(steps: seq<Step<S>>, id: string): (rest: seq<Step<S>>)
    ensures |rest| <= |steps|
    ensures forall s :: s in rest <==> s in steps && s.id != id
    ensures |rest| == |steps| <==> forall s :: s in steps ==> s.id != id
    ensures |rest| == |steps| ==> rest == steps
  {
    if steps == [] then []
    else
      assert steps == [steps[0]] + steps[1..];
      (if steps[0].id != id then [steps[0]] else []) + Without(steps[1..], id)
  }

  ghost predicate UniqueIds<S(!new)>(steps: seq<Step<S>>) {
    forall i, j :: 0 <= i < j < |steps| ==> steps[i].id != steps[j].id
  }

  lemma {:induction false} WithoutKeepsUnique<S(!new)>(steps: seq<Step<S>>, id: string)
    requires UniqueIds(steps)
    ensures UniqueIds(Without(steps, id))
  {
    if steps == [] {
    } else {
      var rest := Without(steps[1..], id);
      WithoutKeepsUnique(steps[1..], id);
      forall k | 0 <= k < |rest| ensures steps[0].id != rest[k].id {
        assert rest[k] in steps[1..];
      }
    }
  }

  // ---------------------------------------------------------------------------
  // Chains
  // ---------------------------------------------------------------------------

  lemma {:induction false} ChainAppend<S(!new)>(steps: seq<Step<S>>, from: string, via: string, to: string,
                                          a: seq<Step<S>>, b: seq<Step<S>>)
    requires IsChain(steps, from, via, a) && IsChain(steps, via, to, b)
    ensures IsChain(steps, from, to, a + b)
    decreases |b|
  {
    if b == [] {
      assert a + b == a;
    } else {
      ChainAppend(steps, from, via, b[|b| - 1].fromVersion, a, b[..|b| - 1]);
      assert (a + b)[..|a + b| - 1] == a + b[..|b| - 1];
    }
  }

  lemma {:induction false} ChainSplit<S(!new)>(steps: seq<Step<S>>, from: string, to: string, path: seq<Step<S>>, k: nat)
    requires IsChain(steps, from, to, path) && k <= |path|
    ensures IsChain(steps, from, VersionAt(from, path, k), path[..k])
    ensures IsChain(steps, VersionAt(from, path, k), to, path[k..])
    decreases |path|
  {
    if k == |path| {
      assert path[..k] == path;
    } else {
      var front := path[..|path| - 1];
      ChainSplit(steps, from, path[|path| - 1].fromVersion, front, k);
      assert front[..k] == path[..k];
      assert front[k..] == path[k..|path| - 1] == path[k..][..|path| - 1 - k];
    }
  }

  /** A shortest chain visits no version twice: a loop could be cut out. */
  lemma ShortestIsSimple<S(!new)>(steps: seq<Step<S>>, from: string, to: string, path: seq<Step<S>>)
    requires Shortest(steps, from, to, path)
    ensures NoVersionTwice(from, path)
  {
    forall i, j | 0 <= i < j <= |path| ensures VersionAt(from, path, i) != VersionAt(from, path, j) {
      if VersionAt(from, path, i) == VersionAt(from, path, j) {
        ChainSplit(steps, from, to, path, i);
        ChainSplit(steps, from, to, path, j);
        ChainAppend(steps, from, VersionAt(from, path, i), to, path[..i], path[j..]);
        assert false;
      }
    }
  }

  // ---------------------------------------------------------------------------
  // Breadth-first search
  // ---------------------------------------------------------------------------

  datatype QueueItem<!S> = QueueItem(version: string, path: seq<Step<S>>)

  ghost predicate Queued<S(!new)>(queue: seq<QueueItem<S>>, v: string) {
    exists i :: 0 <= i < |queue| && queue[i].version == v
  }

  /** Every step leaving a finished version leads to a version already visited, at most one level deeper. */
  ghost predicate Expanded<S(!new)>(steps: seq<Step<S>>, depth: map<string, nat>, finished: set<string>) {
    && finished <= depth.Keys
    && forall s :: s in steps && s.fromVersion in finished ==>
         s.toVersion in depth && depth[s.toVersion] <= depth[s.fromVersion] + 1
  }

  /** A chain either ends in a visited version that is at least as shallow, or is longer than the frontier is deep. */
  lemma {:induction false} FrontierBound<S(!new)>(steps: seq<Step<S>>, depth: map<string, nat>, finished: set<string>,
                                            frontier: nat, from: string, to: string, path: seq<Step<S>>)
    requires Expanded(steps, depth, finished) && from in depth && depth[from] == 0
    requires forall v :: v in depth && v !in finished ==> depth[v] >= frontier
    requires IsChain(steps, from, to, path)
    ensures (to in depth && depth[to] <= |path|) || frontier < |path|
    decreases |path|
  {
    if path == [] {
    } else {
      FrontierBound(steps, depth, finished, frontier, from, path[|path| - 1].fromVersion, path[..|path| - 1]);
    }
  }

  /** The invariant of the search: the queue holds the unfinished visited versions, each with a chain of its
      depth, shallowest first and within two adjacent levels; the target has not been visited. */
  ghost predicate Search<S(!new)>(steps: seq<Step<S>>, from: string, to: string,
                                  depth: map<string, nat>, finished: set<string>, queue: seq<QueueItem<S>>)
  {
    && from in depth && depth[from] == 0 && to !in depth
    && Expanded(steps, depth, finished)
    && (forall v :: v in depth ==> v in finished || Queued(queue, v))
    && (forall i :: 0 <= i < |queue| ==> ItemOk(steps, from, depth, finished, queue[i]))
    && LevelOrdered(queue)
    && (queue != [] ==> forall v :: v in depth ==> depth[v] <= |queue[0].path| + 1)
  }

  ghost predicate LevelOrdered<S(!new)>(queue: seq<QueueItem<S>>) {
    forall i, j :: 0 <= i < j < |queue| ==>
      queue[i].version != queue[j].version && |queue[i].path| <= |queue[j].path|
  }

  lemma LevelOrderedSnoc<S(!new)>(queue: seq<QueueItem<S>>, item: QueueItem<S>)
    requires LevelOrdered(queue)
    requires forall i :: 0 <= i < |queue| ==>
               queue[i].version != item.version && |queue[i].path| <= |item.path|
    ensures LevelOrdered(queue + [item])
  {
  }

  ghost predicate ItemOk<S(!new)>(steps: seq<Step<S>>, from: string, depth: map<string, nat>, finished: set<string>,
                                  item: QueueItem<S>)
  {
    && item.version in depth && item.version !in finished
    && depth[item.version] == |item.path|
    && IsChain(steps, from, item.version, item.path)
  }

  lemma ExtendChain<S(!new)>(steps: seq<Step<S>>, from: string, path: seq<Step<S>>, edge: Step<S>)
    requires edge in steps && IsChain(steps, from, edge.fromVersion, path)
    ensures IsChain(steps, from, edge.toVersion, path + [edge])
  {
  }

  lemma ItemsSnoc<S(!new)>(steps: seq<Step<S>>, from: string, depth: map<string, nat>, finished: set<string>,
                           queue: seq<QueueItem<S>>, item: QueueItem<S>)
    requires forall i :: 0 <= i < |queue| ==> ItemOk(steps, from, depth, finished, queue[i])
    requires item.version !in depth && item.version !in finished
    requires IsChain(steps, from, item.version, item.path)
    ensures forall i :: 0 <= i < |queue + [item]| ==>
              ItemOk(steps, from, depth[item.version := |item.path|], finished, (queue + [item])[i])
  {
  }

  lemma Discover<S(!new)>(steps: seq<Step<S>>, from: string, to: string, depth: map<string, nat>,
                          finished: set<string>, head: QueueItem<S>, rest: seq<QueueItem<S>>, edge: Step<S>)
    requires Search(steps, from, to, depth, finished, [head] + rest)
    requires edge in steps && edge.fromVersion == head.version && edge.toVersion != to
    requires edge.toVersion !in depth
    ensures var item := QueueItem(edge.toVersion, head.path + [edge]);
            Search(steps, from, to, depth[item.version := |item.path|], finished, [head] + (rest + [item]))
  {
    var item := QueueItem(edge.toVersion, head.path + [edge]);
    var depth' := depth[item.version := |item.path|];
    var queue := [head] + rest;
    var queue' := [head] + (rest + [item]);
    assert queue' == queue + [item];
    assert ItemOk(steps, from, depth, finished, queue[0]);
    ExtendChain(steps, from, head.path, edge);
    forall v | v in depth' ensures v in finished || Queued(queue', v) {
      if v == item.version {
        assert queue'[|queue|].version == v;
      } else if v !in finished {
        var i :| 0 <= i < |queue| && queue[i].version == v;
        assert queue'[i].version == v;
      }
    }
    ItemsSnoc(steps, from, depth, finished, queue, item);
    forall i | 0 <= i < |queue|
      ensures queue[i].version != item.version && |queue[i].path| <= |item.path|
    {
      assert ItemOk(steps, from, depth, finished, queue[i]);
    }
    LevelOrderedSnoc(queue, item);
  }

  lemma FinishHead<S(!new)>(steps: seq<Step<S>>, from: string, to: string, depth: map<string, nat>,
                            finished: set<string>, queue: seq<QueueItem<S>>)
    requires Search(steps, from, to, depth, finished, queue) && queue != []
    requires forall s :: s in steps && s.fromVersion == queue[0].version ==> s.toVersion in depth
    ensures Search(steps, from, to, depth, finished + {queue[0].version}, queue[1..])
  {
  }

  /** The versions these steps lead to. */
  ghost function Targets<S(!new)>(steps: seq<Step<S>>): set<string> {
    set s | s in steps :: s.toVersion
  }

  lemma FinishCurrent<S(!new)>(steps: seq<Step<S>>, from: string, to: string, depth: map<string, nat>,
                               finished: set<string>, current: QueueItem<S>, rest: seq<QueueItem<S>>, edges: seq<Step<S>>)
    requires Search(steps, from, to, depth, finished, [current] + rest)
    requires forall s :: s in edges <==> s in steps && s.fromVersion == current.version
    requires Targets(edges) <= depth.Keys
    ensures Search(steps, from, to, depth, finished + {current.version}, rest)
  {
    var queue := [current] + rest;
    FinishHead(steps, from, to, depth, finished, queue);
    assert queue[1..] == rest;
  }

  /** The first edge into the target closes a shortest chain. */
  lemma FoundShortest<S(!new)>(steps: seq<Step<S>>, from: string, to: string, depth: map<string, nat>,
                               finished: set<string>, queue: seq<QueueItem<S>>, edge: Step<S>)
    requires Search(steps, from, to, depth, finished, queue) && queue != []
    requires edge in steps && edge.fromVersion == queue[0].version && edge.toVersion == to
    ensures Shortest(steps, from, to, queue[0].path + [edge])
  {
    var frontier := |queue[0].path|;
    assert ItemOk(steps, from, depth, finished, queue[0]);
    ExtendChain(steps, from, queue[0].path, edge);
    forall v | v in depth && v !in finished ensures depth[v] >= frontier {
      var i :| 0 <= i < |queue| && queue[i].version == v;
      assert ItemOk(steps, from, depth, finished, queue[i]);
    }
    forall other | IsChain(steps, from, to, other) ensures frontier + 1 <= |other| {
      FrontierBound(steps, depth, finished, frontier, from, to, other);
    }
  }

  lemma ExhaustedMeansNoChain<S(!new)>(steps: seq<Step<S>>, from: string, to: string, depth: map<string, nat>,
                                       finished: set<string>, path: seq<Step<S>>)
    requires Search(steps, from, to, depth, finished, [])
    ensures !IsChain(steps, from, to, path)
  {
    if IsChain(steps, from, to, path) {
      FrontierBound(steps, depth, finished, |path|, from, to, path);
    }
  }

  function Lookup<S(!new)>(edgesByFrom: map<string, seq<Step<S>>>, v: string): seq<Step<S>> {
    if v in edgesByFrom then edgesByFrom[v] else []
  }

  ghost predicate Grouped<S(!new)>(edgesByFrom: map<string, seq<Step<S>>>, steps: seq<Step<S>>) {
    forall v, s :: s in Lookup(edgesByFrom, v) <==> s in steps && s.fromVersion == v
  }

  /** Groups steps by the version they leave. */
  method GroupByFrom<S(!new)>(steps: seq<Step<S>>) returns (edgesByFrom: map<string, seq<Step<S>>>)
    ensures Grouped(edgesByFrom, steps)
  {
    edgesByFrom := map[];
    for k := 0 to |steps|
      invariant forall v, s :: s in Lookup(edgesByFrom, v) <==> s in steps[..k] && s.fromVersion == v
    {
      var step := steps[k];
      assert steps[..k + 1] == steps[..k] + [step];
      var bucket := Lookup(edgesByFrom, step.fromVersion);
      ghost var before := edgesByFrom;
      edgesByFrom := edgesByFrom[step.fromVersion := bucket + [step]];
      assert forall v :: Lookup(edgesByFrom, v) == if v == step.fromVersion then bucket + [step] else Lookup(before, v);
    }
    assert steps[..|steps|] == steps;
  }

  /** The inner loop of the search: scans the edges leaving `current`, the version just taken off the queue. */
  method Expand<S(!new)>(ghost steps: seq<Step<S>>, ghost from: string, to: string, current: QueueItem<S>,
                         edges: seq<Step<S>>, pending: seq<QueueItem<S>>, seen: set<string>,
                         ghost depths: map<string, nat>, ghost finished: set<string>)
    returns (found: Option<seq<Step<S>>>, queue: seq<QueueItem<S>>, visited: set<string>, ghost depth: map<string, nat>)
    requires seen == depths.Keys && Search(steps, from, to, depths, finished, [current] + pending)
    requires forall e :: e in edges ==> e in steps && e.fromVersion == current.version
    ensures found.Some? ==> Shortest(steps, from, to, found.value)
    ensures found.None? ==>
              && visited == depth.Keys && Search(steps, from, to, depth, finished, [current] + queue)
              && Targets(edges) <= visited
    ensures seen <= visited <= seen + Targets(edges)
    ensures visited == seen ==> queue == pending
  {
    queue, visited, depth := pending, seen, depths;
    for i := 0 to |edges|
      invariant visited == depth.Keys && Search(steps, from, to, depth, finished, [current] + queue)
      invariant Targets(edges[..i]) <= visited
      invariant seen <= visited <= seen + Targets(edges)
      invariant visited == seen ==> queue == pending
    {
      var edge := edges[i];
      assert edges[..i + 1] == edges[..i] + [edge];
      if edge.toVersion == to {
        FoundShortest(steps, from, to, depth, finished, [current] + queue, edge);
        return Some(current.path + [edge]), queue, visited, depth;
      }
      queue, visited, depth := Visit(steps, from, to, current, edge, queue, visited, depth, finished);
    }
    assert edges[..|edges|] == edges;
    found := None;
  }

  /** Follows one edge: a version not seen before goes to the end of the queue. */
  method Visit<S(!new)>(ghost steps: seq<Step<S>>, ghost from: string, ghost to: string, current: QueueItem<S>, edge: Step<S>,
                        pending: seq<QueueItem<S>>, seen: set<string>,
                        ghost depths: map<string, nat>, ghost finished: set<string>)
    returns (queue: seq<QueueItem<S>>, visited: set<string>, ghost depth: map<string, nat>)
    requires seen == depths.Keys && Search(steps, from, to, depths, finished, [current] + pending)
    requires edge in steps && edge.fromVersion == current.version && edge.toVersion != to
    ensures visited == depth.Keys == seen + {edge.toVersion} && Search(steps, from, to, depth, finished, [current] + queue)
    ensures visited == seen ==> queue == pending
  {
    queue, visited, depth := pending, seen, depths;
    if edge.toVersion !in visited {
      Discover(steps, from, to, depth, finished, current, queue, edge);
      visited := visited + {edge.toVersion};
      depth := depth[edge.toVersion := |current.path| + 1];
      queue := queue + [QueueItem(edge.toVersion, current.path + [edge])];
    }
  }

  /** What path resolution promises: nothing exactly when no chain exists, otherwise a shortest chain. */
  ghost predicate Resolves<S(!new)>(plan: Option<Plan<S>>, steps: seq<Step<S>>, contractId: string,
                                    from: string, to: string)
  {
    match plan
    case None => forall path :: !IsChain(steps, from, to, path)
    case Some(p) =>
      && p.contractId == contractId && p.fromVersion == from && p.toVersion == to
      && Shortest(steps, from, to, p.steps)
      && NoVersionTwice(from, p.steps)
  }

  lemma Shrinks<T>(all: set<T>, before: set<T>, after: set<T>)
    requires before <= after <= all
    ensures before == after || all - after < all - before
  {
  }

  lemma SearchStarts<S(!new)>(steps: seq<Step<S>>, from: string, to: string)
    requires from != to
    ensures Search(steps, from, to, map[from := 0], {}, [QueueItem(from, [])])
  {
    var queue: seq<QueueItem<S>> := [QueueItem(from, [])];
    assert queue[0].version == from;
  }

  lemma NoChains<S(!new)>(steps: seq<Step<S>>, from: string, to: string, depth: map<string, nat>, finished: set<string>)
    requires Search(steps, from, to, depth, finished, [])
    ensures forall path :: !IsChain(steps, from, to, path)
  {
    forall path ensures !IsChain(steps, from, to, path) {
      ExhaustedMeansNoChain(steps, from, to, depth, finished, path);
    }
  }

  /** One round of the search: takes the first version off the queue and follows its edges. */
  method TakeHead<S(!new)>(ghost steps: seq<Step<S>>, edgesByFrom: map<string, seq<Step<S>>>, ghost from: string, to: string,
                           queued: seq<QueueItem<S>>, seen: set<string>,
                           ghost depths: map<string, nat>, ghost done: set<string>)
    returns (found: Option<seq<Step<S>>>, queue: seq<QueueItem<S>>, visited: set<string>,
             ghost depth: map<string, nat>, ghost finished: set<string>)
    requires queued != [] && Grouped(edgesByFrom, steps)
    requires seen == depths.Keys && Search(steps, from, to, depths, done, queued)
    ensures found.Some? ==> Shortest(steps, from, to, found.value)
    ensures found.None? ==> visited == depth.Keys && Search(steps, from, to, depth, finished, queue)
    ensures seen <= visited <= seen + Targets(steps)
    ensures visited == seen ==> |queue| < |queued|
  {
    var current, pending := queued[0], queued[1..];
    assert queued == [current] + pending;
    var edges := Lookup(edgesByFrom, current.version);
    found, queue, visited, depth := Expand(steps, from, to, current, edges, pending, seen, depths, done);
    finished := done + {current.version};
    if found.None? {
      FinishCurrent(steps, from, to, depth, done, current, queue, edges);
    }
  }

  /** Breadth-first search from `from`; the target itself is never put on the queue. */
  method ShortestChain<S(!new)>(steps: seq<Step<S>>, from: string, to: string) returns (chain: Option<seq<Step<S>>>)
    requires from != to
    ensures chain.None? ==> forall path :: !IsChain(steps, from, to, path)
    ensures chain.Some? ==> Shortest(steps, from, to, chain.value) && NoVersionTwice(from, chain.value)
  {
    var edgesByFrom := GroupByFrom(steps);
    ghost var versions := {from} + Targets(steps);
    ghost var depth: map<string, nat> := map[from := 0];
    ghost var finished: set<string> := {};
    var visited := {from};
    var queue := [QueueItem(from, [])];
    SearchStarts(steps, from, to);

    while queue != []
      invariant visited == depth.Keys <= versions
      invariant Search(steps, from, to, depth, finished, queue)
      decreases versions - visited, |queue|
    {
      ghost var seen := visited;
      chain, queue, visited, depth, finished :=
        TakeHead(steps, edgesByFrom, from, to, queue, visited, depth, finished);
      if chain.Some? {
        ShortestIsSimple(steps, from, to, chain.value);
        return;
      }
      Shrinks(versions, seen, visited);
    }

    NoChains(steps, from, to, depth, finished);
    return None;
  }

  class Registry<S(!new)> {
    var stepsByContract: map<string, seq<Step<S>>>

    constructor ()
      ensures stepsByContract == map[]
      ensures Valid()
    {
      stepsByContract := map[];
    }

    /** Step ids are unique within a contract. */
    ghost predicate Valid()
      reads this
    {
      forall c :: c in stepsByContract ==> UniqueIds(stepsByContract[c])
    }

    function ListSteps(contractId: string): seq<Step<S>>
      reads this
    {
      if contractId in stepsByContract then stepsByContract[contractId] else []
    }

    /** Replaces any step with the same id; the new step goes last. Other contracts are untouched. */
    method Register(contractId: string, step: Step<S>)
      requires Valid()
      modifies this
      ensures Valid()
      ensures stepsByContract == old(stepsByContract)[contractId := Without(old(ListSteps(contractId)), step.id) + [step]]
    {
      var steps := ListSteps(contractId);
      var next := Without(steps, step.id);
      WithoutKeepsUnique(steps, step.id);
      stepsByContract := stepsByContract[contractId := next + [step]];
    }

    method Unregister(contractId: string, stepId: string) returns (removed: bool)
      requires Valid()
      modifies this
      ensures Valid()
      ensures removed <==> exists s :: s in old(ListSteps(contractId)) && s.id == stepId
      ensures forall c :: ListSteps(c) == if c == contractId then Without(old(ListSteps(c)), stepId) else old(ListSteps(c))
    {
      if contractId !in stepsByContract {
        return false;
      }
      var steps := stepsByContract[contractId];
      var next := Without(steps, stepId);
      WithoutKeepsUnique(steps, stepId);
      removed := |next| != |steps|;
      stepsByContract := stepsByContract[contractId := next];
    }

    /** Finds a shortest chain, and throws (None) exactly when there is no chain at all. */
    method ResolvePath(contractId: string, fromVersion: string, toVersion: string) returns (plan: Option<Plan<S>>)
      ensures Resolves(plan, ListSteps(contractId), contractId, fromVersion, toVersion)
    {
      var steps := ListSteps(contractId);
      if fromVersion == toVersion {
        assert IsChain(steps, fromVersion, toVersion, []);
        return Some(Plan(contractId, fromVersion, toVersion, []));
      }

      var chain := ShortestChain(steps, fromVersion, toVersion);
      plan := if chain.None? then None else Some(Plan(contractId, fromVersion, toVersion, chain.value));
    }
  }
}
