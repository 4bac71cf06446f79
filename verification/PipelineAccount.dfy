/**
 * What the middleware pipeline does, told hook by hook and registration by registration.
 */
module PipelineAccount {
  import opened Common
  import opened Pipeline

  // ---------------------------------------------------------------------------
  // Which hooks run, and when
  // ---------------------------------------------------------------------------

  /** The stage runs this hook of the entry. */
  ghost predicate Runs<V(!new)>(stage: Stage<V>, kind: Kind, m: Registered<V>) {
    && stage.call == HookCall(kind, m.sequence)
    && match kind
       case PreHook => m.pre == Some(stage.run)
       case PostHook => m.post == Some(stage.run)
       case ErrorHook => m.onError == Some(stage.run)
  }

  /** The stages run the hooks of these entries, first to last. */
  ghost predicate RunInOrder<V(!new)>(stages: seq<Stage<V>>, kind: Kind, owners: seq<Registered<V>>) {
    |stages| == |owners| && forall i :: 0 <= i < |owners| ==> Runs(stages[i], kind, owners[i])
  }

  /** The stages run the hooks of these entries, last to first. */
  ghost predicate RunBackwards<V(!new)>(stages: seq<Stage<V>>, kind: Kind, owners: seq<Registered<V>>) {
    |stages| == |owners| && forall i :: 0 <= i < |owners| ==> Runs(stages[|owners| - 1 - i], kind, owners[i])
  }

  lemma {:induction false} StagesRunOwners<V(!new)>(kind: Kind, list: seq<Registered<V>>)
    ensures RunInOrder(HookStages(kind, list), kind, WithHook(kind, list))
  {
    if list == [] {
    } else {
      StagesRunOwners(kind, list[1..]);
    }
  }

  lemma {:induction false} ReverseAt<V(!new)>(list: seq<Registered<V>>)
    ensures |Reverse(list)| == |list|
    ensures forall i :: 0 <= i < |list| ==> Reverse(list)[|list| - 1 - i] == list[i]
  {
    if list == [] {
    } else {
      ReverseAt(list[1..]);
    }
  }

  lemma HandlersRunBackwards<V(!new)>(kind: Kind, list: seq<Registered<V>>)
    ensures RunBackwards(HookStages(kind, Reverse(list)), kind, WithHook(kind, list))
  {
    StagesRunOwners(kind, Reverse(list));
    WithHookReverse(kind, list);
    ReverseAt(WithHook(kind, list));
  }

  /** The stage of the wrapped function: its result goes into the context, and what it throws is thrown. */
  ghost predicate RunsNext<V(!new)>(stage: Stage<V>, next: Context<V> -> Answer<V>) {
    && stage.call == NextCall
    && forall c :: match next(c)
                   case Answers(d, result) => stage.run(c) == Outcome(Context(d.payload, Some(result), d.error), None)
                   case Fails(d, error) => stage.run(c) == Outcome(d, Some(error))
  }

  /** The stages of a workflow, part by part. */
  ghost predicate Parts<V(!new)>(stages: seq<Stage<V>>, pres: seq<Registered<V>>, next: Context<V> -> Answer<V>,
                                 posts: seq<Registered<V>>)
  {
    && |stages| == |pres| + 1 + |posts|
    && RunInOrder(stages[..|pres|], PreHook, pres)
    && RunsNext(stages[|pres|], next)
    && RunBackwards(stages[|pres| + 1..], PostHook, posts)
  }

  lemma PartsJoin<V(!new)>(first: seq<Stage<V>>, one: Stage<V>, last: seq<Stage<V>>, pres: seq<Registered<V>>,
                           next: Context<V> -> Answer<V>, posts: seq<Registered<V>>)
    requires RunInOrder(first, PreHook, pres) && RunsNext(one, next) && RunBackwards(last, PostHook, posts)
    ensures Parts((first + [one]) + last, pres, next, posts)
  {
    var stages := (first + [one]) + last;
    assert stages[..|pres|] == first && stages[|pres|] == one && stages[|pres| + 1..] == last;
  }

  /** A workflow is the pre hooks in increasing (order, sequence), then next, then the post hooks in decreasing (order,
      sequence); after a failure come the error hooks in decreasing (order, sequence). */
  lemma StagesOfWorkflow<V(!new)>(list: seq<Registered<V>>, next: Context<V> -> Answer<V>)
    returns (pres: seq<Registered<V>>, posts: seq<Registered<V>>, errors: seq<Registered<V>>)
    requires Sorted(list)
    ensures Sorted(pres) && Sorted(posts) && Sorted(errors)
    ensures forall m :: m in pres <==> m in list && m.pre.Some?
    ensures forall m :: m in posts <==> m in list && m.post.Some?
    ensures forall m :: m in errors <==> m in list && m.onError.Some?
    ensures Parts(AllStages(list, next), pres, next, posts)
    ensures RunBackwards(HookStages(ErrorHook, Reverse(list)), ErrorHook, errors)
  {
    pres, posts, errors := WithHook(PreHook, list), WithHook(PostHook, list), WithHook(ErrorHook, list);
    KindInOrder(PreHook, list);
    KindInOrder(PostHook, list);
    KindInOrder(ErrorHook, list);
    StagesRunOwners(PreHook, list);
    HandlersRunBackwards(PostHook, list);
    HandlersRunBackwards(ErrorHook, list);
    PartsJoin(HookStages(PreHook, list), NextStage(next), HookStages(PostHook, Reverse(list)), pres, next, posts);
  }

  // ---------------------------------------------------------------------------
  // From context to context
  // ---------------------------------------------------------------------------

  /** Each stage takes one context to the next one, and none of them throws. */
  ghost predicate Through<V(!new)>(stages: seq<Stage<V>>, contexts: seq<Context<V>>) {
    && |contexts| == |stages| + 1
    && forall i :: 0 <= i < |stages| ==> stages[i].run(contexts[i]) == Outcome(contexts[i + 1], None)
  }

  /** The run leads through these contexts, up to the end or to a stage that throws, and calls just those stages. */
  ghost predicate Leads<V(!new)>(stages: seq<Stage<V>>, contexts: seq<Context<V>>, r: Ran<V>) {
    var k := |contexts| - 1;
    && 0 <= k <= |stages| && Through(stages[..k], contexts)
    && if k == |stages| then r == Ran(Calls(stages), contexts[k], None)
       else r.thrown.Some? && stages[k].run(contexts[k]) == Outcome(r.context, r.thrown) && r.trace == Calls(stages[..k + 1])
  }

  lemma {:induction false} RunLeads<V(!new)>(stages: seq<Stage<V>>, context: Context<V>) returns (contexts: seq<Context<V>>)
    ensures Leads(stages, contexts, RunStages(stages, context)) && contexts[0] == context
    decreases |stages|
  {
    contexts := [context];
    if stages != [] {
      var outcome, rest := stages[0].run(context), stages[1..];
      if outcome.thrown.None? {
        var others := RunLeads(rest, outcome.context);
        contexts := [context] + others;
        var k := |others| - 1;
        assert stages[..k + 1] == [stages[0]] + rest[..k];
        forall i | 0 <= i < k + 1 ensures stages[i].run(contexts[i]) == Outcome(contexts[i + 1], None) {
          if i > 0 {
            assert rest[..k][i - 1] == stages[i];
          }
        }
        CallsConcat([stages[0]], rest);
        assert Calls([stages[0]]) == [stages[0].call];
        if k < |rest| {
          assert stages[..k + 2] == [stages[0]] + rest[..k + 1];
          CallsConcat([stages[0]], rest[..k + 1]);
        } else {
          assert stages == [stages[0]] + rest;
        }
      } else {
        assert Calls(stages[..1]) == [stages[0].call];
      }
    }
  }

  /** What `execute` gives when the stages end with `r` and the error hooks, if they run, with `e`. */
  ghost predicate Gives<V(!new)>(r: Ran<V>, e: Ran<V>, settled: Settled<V>, trace: seq<Call>) {
    match r.thrown
    case None => settled == Resolves(r.context.result) && trace == r.trace
    case Some(_) => settled == Rejects(if e.thrown.Some? then e.thrown else e.context.error) && trace == r.trace + e.trace
  }

  /** A call starts with the payload alone and goes from hook to hook. When nothing throws, it resolves with the result
      in the last context; otherwise the error hooks start from the context of the failure with the error in it, and it
      rejects with the error in their last context, or with what one of them throws. */
  lemma ExecuteGoesThrough<V(!new)>(list: seq<Registered<V>>, payload: V, next: Context<V> -> Answer<V>)
    returns (r: Ran<V>, contexts: seq<Context<V>>, e: Ran<V>, after: seq<Context<V>>)
    ensures contexts != [] && contexts[0] == Context(payload, None, None) && Leads(AllStages(list, next), contexts, r)
    ensures after != [] && after[0] == Context(r.context.payload, r.context.result, r.thrown)
    ensures Leads(HookStages(ErrorHook, Reverse(list)), after, e)
    ensures Gives(r, e, Execute(list, payload, next).0, Execute(list, payload, next).1)
  {
    var start := Context(payload, None, None);
    contexts := RunLeads(AllStages(list, next), start);
    r := RunStages(AllStages(list, next), start);
    var failed := r.context.(error := r.thrown);
    after := RunLeads(HookStages(ErrorHook, Reverse(list)), failed);
    e := RunStages(HookStages(ErrorHook, Reverse(list)), failed);
  }

  // ---------------------------------------------------------------------------
  // Where entries come from
  // ---------------------------------------------------------------------------

  /** How many registrations there were. */
  function Uses<V(!new)>(changes: seq<Change<V>>): nat {
    if changes == [] then 0
    else
      var last := changes[|changes| - 1];
      Uses(changes[..|changes| - 1]) + if last.Used? && last.m.name != "" then 1 else 0
  }

  /** The entry is the middleware as it was registered; without an order of its own it has order zero. */
  ghost predicate IsEntryOf<V(!new)>(e: Registered<V>, m: Middleware<V>, sequence: nat) {
    && e.name == m.name != "" && e.pre == m.pre && e.post == m.post && e.onError == m.onError && e.sequence == sequence
    && match m.order
       case None => e.order == 0.0
       case Some(order) => e.order == order
  }

  ghost predicate RegisteredAt<V(!new)>(changes: seq<Change<V>>, e: Registered<V>, i: nat)
    requires i < |changes|
  {
    changes[i].Used? && IsEntryOf(e, changes[i].m, Uses(changes[..i]))
  }

  lemma {:induction false} ApplySnoc<V(!new)>(s: State<V>, front: seq<Change<V>>, last: Change<V>)
    ensures ApplyAll(s, front + [last]) == Apply(ApplyAll(s, front), last)
    decreases |front|
  {
    if front == [] {
      assert front + [last] == [last] && [last][1..] == [];
    } else {
      assert (front + [last])[1..] == front[1..] + [last];
      ApplySnoc(Apply(s, front[0]), front[1..], last);
    }
  }

  lemma ApplyMembers<V(!new)>(s: State<V>, change: Change<V>, e: Registered<V>)
    requires Sorted(s.list) && SequencesBelow(s.list, s.nextSequence) && e in Apply(s, change).list
    ensures e in s.list || (change.Used? && IsEntryOf(e, change.m, s.nextSequence))
  {
    match change
    case Used(m) =>
      SortPlaces(s.list, Register(m, s.nextSequence));
      PlacedMembers(s.list, Register(m, s.nextSequence));
    case Removed(name) => RemoveFirstSorted(s.list, name);
    case Cleared =>
  }

  /** After any run, every entry is what one of the calls of `use` registered, with the number of the earlier ones as its
      sequence number. */
  lemma {:induction false} EntriesComeFromUses<V(!new)>(changes: seq<Change<V>>, e: Registered<V>)
    ensures var s := ApplyAll(State([], 0), changes);
            && s.nextSequence == Uses(changes)
            && (e in s.list ==> exists i :: 0 <= i < |changes| && RegisteredAt(changes, e, i))
    decreases |changes|
  {
    if changes == [] {
    } else {
      var front, last := changes[..|changes| - 1], changes[|changes| - 1];
      assert changes == front + [last];
      EntriesComeFromUses(front, e);
      ApplySnoc(State([], 0), front, last);
      var s := ApplyAll(State([], 0), front);
      AlwaysSorted(State([], 0), front);
      if e in Apply(s, last).list {
        ApplyMembers(s, last, e);
        if e in s.list {
          var i :| 0 <= i < |front| && RegisteredAt(front, e, i);
          assert changes[..i] == front[..i];
          assert RegisteredAt(changes, e, i);
        } else {
          assert RegisteredAt(changes, e, |front|);
        }
      }
    }
  }
}
