/**
 * The ordered middleware pipeline (src/middleware/pipeline.ts). A hook is a function of the context; it may change
 * the context it is given even when it throws.
 */
module Pipeline {
  import opened Common

  /** Payloads, results and thrown values are of any type `V`. */
  datatype Context<+V> = Context(payload: V, result: Option<V>, error: Option<V>)
  datatype Outcome<+V> = Outcome(context: Context<V>, thrown: Option<V>)
  type Hook<!V> = Context<V> -> Outcome<V>

  /** What the wrapped function makes of the context, which it may change, and its result or what it throws. */
  datatype Answer<+V> = Answers(context: Context<V>, result: V) | Fails(context: Context<V>, error: V)

  datatype Middleware<!V> = Middleware(name: string, order: Option<real>, pre: Option<Hook<V>>, post: Option<Hook<V>>,
                                       onError: Option<Hook<V>>)
  datatype Registered<!V> = Registered(name: string, order: real, sequence: nat, pre: Option<Hook<V>>,
                                       post: Option<Hook<V>>, onError: Option<Hook<V>>)

  // ---------------------------------------------------------------------------
  // Order
  // ---------------------------------------------------------------------------

  predicate Precedes<V(!new)>(a: Registered<V>, b: Registered<V>) {
    a.order < b.order || (a.order == b.order && a.sequence < b.sequence)
  }

  ghost predicate BeforeAll<V(!new)>(a: Registered<V>, list: seq<Registered<V>>) {
    forall b :: b in list ==> Precedes(a, b)
  }

  /** Strictly increasing in order and, within an order, in registration sequence. */
  ghost predicate Sorted<V(!new)>(list: seq<Registered<V>>) {
    list == [] || (BeforeAll(list[0], list[1..]) && Sorted(list[1..]))
  }

  function Insert<V(!new)>(x: Registered<V>, list: seq<Registered<V>>): seq<Registered<V>> {
    if list == [] || Precedes(x, list[0]) then [x] + list else [list[0]] + Insert(x, list[1..])
  }

  /** What the comparator of the source sorts a list into. */
  function Sort<V(!new)>(list: seq<Registered<V>>): seq<Registered<V>> {
    if list == [] then [] else Insert(list[0], Sort(list[1..]))
  }

  /** The list without the first entry of this name. */
  function RemoveFirst<V(!new)>(list: seq<Registered<V>>, name: string): seq<Registered<V>> {
    if list == [] then []
    else if list[0].name == name then list[1..]
    else [list[0]] + RemoveFirst(list[1..], name)
  }

  ghost predicate Named<V(!new)>(list: seq<Registered<V>>, name: string) {
    exists m :: m in list && m.name == name
  }

  function Register<V(!new)>(m: Middleware<V>, sequence: nat): Registered<V> {
    Registered(m.name, if m.order.Some? then m.order.value else 0.0, sequence, m.pre, m.post, m.onError)
  }

  ghost predicate SequencesBelow<V(!new)>(list: seq<Registered<V>>, bound: nat) {
    forall m :: m in list ==> m.sequence < bound
  }

  // ---------------------------------------------------------------------------
  // Running hooks
  // ---------------------------------------------------------------------------

  datatype Kind = PreHook | PostHook | ErrorHook
  datatype Call = HookCall(kind: Kind, sequence: nat) | NextCall
  datatype Stage<!V> = Stage(call: Call, run: Hook<V>)
  datatype Ran<+V> = Ran(trace: seq<Call>, context: Context<V>, thrown: Option<V>)

  function HookOf<V(!new)>(kind: Kind, m: Registered<V>): Option<Hook<V>> {
    match kind
    case PreHook => m.pre
    case PostHook => m.post
    case ErrorHook => m.onError
  }

  function HookStages<V(!new)>(kind: Kind, list: seq<Registered<V>>): seq<Stage<V>> {
    if list == [] then []
    else
      var rest, hook := HookStages(kind, list[1..]), HookOf(kind, list[0]);
      if hook.None? then rest else [Stage(HookCall(kind, list[0].sequence), hook.value)] + rest
  }

  function Reverse<V(!new)>(list: seq<Registered<V>>): seq<Registered<V>> {
    if list == [] then [] else Reverse(list[1..]) + [list[0]]
  }

  function NextStage<V(!new)>(next: Context<V> -> Answer<V>): Stage<V> {
    Stage(NextCall, (c: Context<V>) =>
      match next(c)
      case Answers(context, result) => Outcome(context.(result := Some(result)), None)
      case Fails(context, error) => Outcome(context, Some(error)))
  }

  /** Every stage of a call that nothing goes wrong with. */
  function AllStages<V(!new)>(list: seq<Registered<V>>, next: Context<V> -> Answer<V>): seq<Stage<V>> {
    (HookStages(PreHook, list) + [NextStage(next)]) + HookStages(PostHook, Reverse(list))
  }

  function Calls<V(!new)>(stages: seq<Stage<V>>): seq<Call> {
    seq(|stages|, i requires 0 <= i < |stages| => stages[i].call)
  }

  function After<V(!new)>(trace: seq<Call>, r: Ran<V>): Ran<V> {
    Ran(trace + r.trace, r.context, r.thrown)
  }

  /** Runs the stages until one throws. */
  function RunStages<V(!new)>(stages: seq<Stage<V>>, context: Context<V>): Ran<V>
    decreases |stages|
  {
    if stages == [] then Ran([], context, None)
    else
      var outcome := stages[0].run(context);
      if outcome.thrown.Some? then Ran([stages[0].call], outcome.context, outcome.thrown)
      else After([stages[0].call], RunStages(stages[1..], outcome.context))
  }

  datatype Settled<+V> = Resolves(result: Option<V>) | Rejects(error: Option<V>)

  function Execute<V(!new)>(list: seq<Registered<V>>, payload: V, next: Context<V> -> Answer<V>): (Settled<V>, seq<Call>) {
    var r := RunStages(AllStages(list, next), Context(payload, None, None));
    if r.thrown.None? then (Resolves(r.context.result), r.trace)
    else
      var e := RunStages(HookStages(ErrorHook, Reverse(list)), r.context.(error := r.thrown));
      (Rejects(if e.thrown.Some? then e.thrown else e.context.error), r.trace + e.trace)
  }

  class MiddlewarePipeline<V(!new)> {
    var middleware: seq<Registered<V>>
    var nextSequence: nat

    ghost predicate Valid()
      reads this
    {
      Sorted(middleware) && SequencesBelow(middleware, nextSequence)
    }

    constructor ()
      ensures Valid() && middleware == [] && nextSequence == 0
    {
      middleware, nextSequence := [], 0;
    }

    /** Refuses an empty name, which changes nothing. */
    method Use(m: Middleware<V>) returns (ok: bool)
      requires Valid()
      modifies this
      ensures Valid() && (ok <==> m.name != "")
      ensures !ok ==> middleware == old(middleware) && nextSequence == old(nextSequence)
      ensures ok ==> && nextSequence == old(nextSequence) + 1
                     && middleware == Placed(old(middleware), Register(m, old(nextSequence)))
    {
      if m.name == "" {
        return false;
      }
      var registered := Register(m, nextSequence);
      SortPlaces(middleware, registered);
      PlacedSorted(middleware, registered);
      nextSequence := nextSequence + 1;
      middleware := middleware + [registered];
      middleware := Sort(middleware);
      return true;
    }

    method Remove(name: string) returns (removed: bool)
      requires Valid()
      modifies this
      ensures Valid() && nextSequence == old(nextSequence)
      ensures middleware == RemoveFirst(old(middleware), name)
      ensures removed <==> Named(old(middleware), name)
    {
      RemoveFirstSorted(middleware, name);
      var index := 0;
      while index < |middleware| && middleware[index].name != name
        invariant index <= |middleware|
        invariant forall i :: 0 <= i < index ==> middleware[i].name != name
      {
        index := index + 1;
      }
      RemoveFirstAt(middleware, name, index);
      if index == |middleware| {
        return false;
      }
      middleware := middleware[..index] + middleware[index + 1..];
      return true;
    }

    method Clear()
      requires Valid()
      modifies this
      ensures Valid() && middleware == [] && nextSequence == old(nextSequence)
    {
      middleware := [];
    }

    /** One pass over the hooks of a kind. */
    method RunHooks(kind: Kind, list: seq<Registered<V>>, start: Context<V>) returns (r: Ran<V>)
      ensures r == RunStages(HookStages(kind, list), start)
    {
      var trace: seq<Call>, context := [], start;
      AfterNothing(RunStages(HookStages(kind, list), start));
      assert list[0..] == list;
      for i := 0 to |list|
        invariant RunStages(HookStages(kind, list), start) == After(trace, RunStages(HookStages(kind, list[i..]), context))
      {
        var hook := HookOf(kind, list[i]);
        HookStagesFrom(kind, list, i);
        if hook.Some? {
          var outcome := hook.value(context);
          var call := HookCall(kind, list[i].sequence);
          RunCons(Stage(call, hook.value), HookStages(kind, list[i + 1..]), context);
          if outcome.thrown.Some? {
            return Ran(trace + [call], outcome.context, outcome.thrown);
          }
          AfterAssoc(trace, [call], RunStages(HookStages(kind, list[i + 1..]), outcome.context));
          trace, context := trace + [call], outcome.context;
        }
      }
      assert trace + [] == trace;
      return Ran(trace, context, None);
    }

    /** The calls made are returned beside what the caller of the source sees. */
    method ExecuteWorkflow(payload: V, next: Context<V> -> Answer<V>) returns (settled: Settled<V>, trace: seq<Call>)
      ensures (settled, trace) == Execute(middleware, payload, next)
    {
      var pres, posts := HookStages(PreHook, middleware), HookStages(PostHook, Reverse(middleware));
      RunConcat(pres + [NextStage(next)], posts, Context(payload, None, None));
      RunConcat(pres, [NextStage(next)], Context(payload, None, None));
      var r := RunHooks(PreHook, middleware, Context(payload, None, None));
      trace := r.trace;
      if r.thrown.None? {
        RunOne(NextStage(next), r.context);
        var answer := next(r.context);
        trace := trace + [NextCall];
        if answer.Answers? {
          r := RunHooks(PostHook, Reverse(middleware), answer.context.(result := Some(answer.result)));
          trace := trace + r.trace;
        } else {
          r := Ran([], answer.context, Some(answer.error));
        }
      }
      if r.thrown.None? {
        return Resolves(r.context.result), trace;
      }
      var e := RunHooks(ErrorHook, Reverse(middleware), r.context.(error := r.thrown));
      settled := Rejects(if e.thrown.Some? then e.thrown else e.context.error);
      trace := trace + e.trace;
    }
  }

  // ---------------------------------------------------------------------------
  // Stages
  // ---------------------------------------------------------------------------

  lemma AfterNothing<V(!new)>(r: Ran<V>)
    ensures After([], r) == r
  {
  }

  lemma AfterAssoc<V(!new)>(a: seq<Call>, b: seq<Call>, r: Ran<V>)
    ensures After(a, After(b, r)) == After(a + b, r)
  {
  }

  lemma HookStagesFrom<V(!new)>(kind: Kind, list: seq<Registered<V>>, i: nat)
    requires i < |list|
    ensures var rest, hook := HookStages(kind, list[i + 1..]), HookOf(kind, list[i]);
            HookStages(kind, list[i..]) ==
            if hook.None? then rest else [Stage(HookCall(kind, list[i].sequence), hook.value)] + rest
  {
  }

  lemma RunCons<V(!new)>(s: Stage<V>, rest: seq<Stage<V>>, context: Context<V>)
    ensures var outcome := s.run(context);
            RunStages([s] + rest, context) ==
            if outcome.thrown.Some? then Ran([s.call], outcome.context, outcome.thrown)
            else After([s.call], RunStages(rest, outcome.context))
  {
  }

  lemma RunOne<V(!new)>(s: Stage<V>, context: Context<V>)
    ensures var outcome := s.run(context);
            RunStages([s], context) == Ran([s.call], outcome.context, outcome.thrown)
  {
  }

  lemma {:induction false} RunConcat<V(!new)>(a: seq<Stage<V>>, b: seq<Stage<V>>, context: Context<V>)
    ensures var r := RunStages(a, context);
            RunStages(a + b, context) == if r.thrown.Some? then r else After(r.trace, RunStages(b, r.context))
    decreases |a|
  {
    if a == [] {
      assert a + b == b;
      AfterNothing(RunStages(b, context));
    } else {
      var outcome := a[0].run(context);
      assert a + b == [a[0]] + (a[1..] + b);
      RunCons(a[0], a[1..] + b, context);
      if outcome.thrown.None? {
        RunConcat(a[1..], b, outcome.context);
        var r := RunStages(a[1..], outcome.context);
        AfterAssoc([a[0].call], r.trace, RunStages(b, r.context));
      }
    }
  }

  /** The stage whose run ended with this context and this thrown value. */
  ghost predicate ThrownBy<V(!new)>(s: Stage<V>, r: Ran<V>) {
    r.thrown.Some? && exists input :: s.run(input) == Outcome(r.context, r.thrown)
  }

  /** Running stops at the first stage that throws: what has been called is all of the stages, or ends with that one. */
  lemma {:induction false} RunIsPrefix<V(!new)>(stages: seq<Stage<V>>, context: Context<V>)
    ensures var r := RunStages(stages, context);
            && |r.trace| <= |stages| && r.trace == Calls(stages)[..|r.trace|]
            && (r.thrown.None? ==> |r.trace| == |stages|)
            && (r.thrown.Some? ==> r.trace != [] && ThrownBy(stages[|r.trace| - 1], r))
    decreases |stages|
  {
    if stages == [] {
    } else {
      var outcome := stages[0].run(context);
      assert Calls(stages) == [stages[0].call] + Calls(stages[1..]);
      if outcome.thrown.None? {
        RunIsPrefix(stages[1..], outcome.context);
        var rest := RunStages(stages[1..], outcome.context);
        if rest.thrown.Some? {
          assert ThrownBy(stages[1..][|rest.trace| - 1], rest);
          var input :| stages[1..][|rest.trace| - 1].run(input) == Outcome(rest.context, rest.thrown);
          assert stages[|rest.trace|].run(input) == Outcome(rest.context, rest.thrown);
        }
      } else {
        assert stages[0].run(context) == Outcome(outcome.context, outcome.thrown);
      }
    }
  }

  /** The first `k` calls of a workflow, and then the first `e` of its error hooks. */
  ghost predicate Interrupted(trace: seq<Call>, full: seq<Call>, k: nat, errors: seq<Call>, e: nat) {
    1 <= k <= |full| && e <= |errors| && trace == full[..k] + errors[..e]
  }

  /** The calls of a resolved workflow are all of its stages; a rejected one makes a non-empty first part of them and
      then those of the error hooks, last registered first, all of them unless one throws. An error hook cannot turn
      a failure into a success. */
  lemma TraceShape<V(!new)>(list: seq<Registered<V>>, payload: V, next: Context<V> -> Answer<V>)
    ensures var (settled, trace) := Execute(list, payload, next);
            var full, errors := Calls(AllStages(list, next)), Calls(HookStages(ErrorHook, Reverse(list)));
            var r := RunStages(AllStages(list, next), Context(payload, None, None));
            && (settled.Resolves? <==> r.thrown.None?)
            && (settled.Resolves? ==> trace == full)
            && (settled.Rejects? ==>
                  var e := RunStages(HookStages(ErrorHook, Reverse(list)), r.context.(error := r.thrown));
                  && Interrupted(trace, full, |r.trace|, errors, |e.trace|)
                  && (e.thrown.None? ==> |e.trace| == |errors|)
                  && settled.error == if e.thrown.Some? then e.thrown else e.context.error)
  {
    var stages, handlers := AllStages(list, next), HookStages(ErrorHook, Reverse(list));
    var full, errors := Calls(stages), Calls(handlers);
    var r := RunStages(stages, Context(payload, None, None));
    RunIsPrefix(stages, Context(payload, None, None));
    if r.thrown.None? {
      assert full[..|full|] == full;
    } else {
      RunIsPrefix(handlers, r.context.(error := r.thrown));
    }
  }

  // The order of the calls

  /** The entries that have a hook of this kind, in order. */
  function WithHook<V(!new)>(kind: Kind, list: seq<Registered<V>>): seq<Registered<V>> {
    if list == [] then []
    else (if HookOf(kind, list[0]).Some? then [list[0]] else []) + WithHook(kind, list[1..])
  }

  lemma {:induction false} WithHookMembers<V(!new)>(kind: Kind, list: seq<Registered<V>>)
    ensures forall m :: m in WithHook(kind, list) <==> m in list && HookOf(kind, m).Some?
  {
    if list == [] {
    } else {
      WithHookMembers(kind, list[1..]);
      assert list == [list[0]] + list[1..];
    }
  }

  lemma {:induction false} WithHookSorted<V(!new)>(kind: Kind, list: seq<Registered<V>>)
    requires Sorted(list)
    ensures Sorted(WithHook(kind, list))
  {
    if list == [] {
    } else {
      var rest := WithHook(kind, list[1..]);
      WithHookSorted(kind, list[1..]);
      WithHookMembers(kind, list[1..]);
      assert ([list[0]] + rest)[1..] == rest && [] + rest == rest;
    }
  }

  lemma {:induction false} WithHookConcat<V(!new)>(kind: Kind, a: seq<Registered<V>>, b: seq<Registered<V>>)
    ensures WithHook(kind, a + b) == WithHook(kind, a) + WithHook(kind, b)
  {
    if a == [] {
      assert a + b == b;
    } else {
      WithHookConcat(kind, a[1..], b);
      assert (a + b)[1..] == a[1..] + b;
      Assoc(if HookOf(kind, a[0]).Some? then [a[0]] else [], WithHook(kind, a[1..]), WithHook(kind, b));
    }
  }

  lemma {:induction false} WithHookReverse<V(!new)>(kind: Kind, list: seq<Registered<V>>)
    ensures WithHook(kind, Reverse(list)) == Reverse(WithHook(kind, list))
  {
    if list == [] {
    } else {
      var rest := WithHook(kind, list[1..]);
      WithHookReverse(kind, list[1..]);
      WithHookConcat(kind, Reverse(list[1..]), [list[0]]);
      assert WithHook(kind, [list[0]][1..]) == [];
      assert ([list[0]] + rest)[1..] == rest && [] + rest == rest;
      assert Reverse(rest) + [] == Reverse(rest);
    }
  }

  function CallsOf<V(!new)>(kind: Kind, owners: seq<Registered<V>>): seq<Call> {
    if owners == [] then [] else [HookCall(kind, owners[0].sequence)] + CallsOf(kind, owners[1..])
  }

  lemma CallsConcat<V(!new)>(a: seq<Stage<V>>, b: seq<Stage<V>>)
    ensures Calls(a + b) == Calls(a) + Calls(b)
  {
  }

  lemma {:induction false} HookStagesCalls<V(!new)>(kind: Kind, list: seq<Registered<V>>)
    ensures Calls(HookStages(kind, list)) == CallsOf(kind, WithHook(kind, list))
  {
    if list == [] {
    } else {
      var hook, rest := HookOf(kind, list[0]), WithHook(kind, list[1..]);
      HookStagesCalls(kind, list[1..]);
      if hook.Some? {
        var stage := Stage(HookCall(kind, list[0].sequence), hook.value);
        CallsConcat([stage], HookStages(kind, list[1..]));
        assert Calls([stage]) == [stage.call];
        assert ([list[0]] + rest)[1..] == rest;
      } else {
        assert [] + rest == rest;
      }
    }
  }

  lemma KindInOrder<V(!new)>(kind: Kind, list: seq<Registered<V>>)
    requires Sorted(list)
    ensures Sorted(WithHook(kind, list))
    ensures forall m :: m in WithHook(kind, list) <==> m in list && HookOf(kind, m).Some?
    ensures Calls(HookStages(kind, list)) == CallsOf(kind, WithHook(kind, list))
    ensures Calls(HookStages(kind, Reverse(list))) == CallsOf(kind, Reverse(WithHook(kind, list)))
  {
    WithHookMembers(kind, list);
    WithHookSorted(kind, list);
    WithHookReverse(kind, list);
    HookStagesCalls(kind, list);
    HookStagesCalls(kind, Reverse(list));
  }

  /** A workflow that nothing goes wrong with calls every pre hook in increasing (order, sequence), then next, then
      every post hook in decreasing (order, sequence); and so go the error hooks after a failure. */
  lemma FullTraceOrder<V(!new)>(list: seq<Registered<V>>, next: Context<V> -> Answer<V>)
    requires Sorted(list)
    ensures var pres, posts := WithHook(PreHook, list), WithHook(PostHook, list);
            && Calls(AllStages(list, next)) == CallsOf(PreHook, pres) + [NextCall] + CallsOf(PostHook, Reverse(posts))
            && Sorted(pres) && Sorted(posts)
            && (forall m :: m in pres <==> m in list && m.pre.Some?)
            && (forall m :: m in posts <==> m in list && m.post.Some?)
    ensures var errors := WithHook(ErrorHook, list);
            && Calls(HookStages(ErrorHook, Reverse(list))) == CallsOf(ErrorHook, Reverse(errors))
            && Sorted(errors) && (forall m :: m in errors <==> m in list && m.onError.Some?)
  {
    var first, last := HookStages(PreHook, list), HookStages(PostHook, Reverse(list));
    KindInOrder(PreHook, list);
    KindInOrder(PostHook, list);
    KindInOrder(ErrorHook, list);
    CallsConcat(first + [NextStage(next)], last);
    CallsConcat(first, [NextStage(next)]);
    assert Calls([NextStage(next)]) == [NextCall];
  }

  // ---------------------------------------------------------------------------
  // The list
  // ---------------------------------------------------------------------------

  /** The list with `x` after every entry of its order or a lower one. */
  function Placed<V(!new)>(list: seq<Registered<V>>, x: Registered<V>): seq<Registered<V>> {
    if list == [] then [x]
    else if list[0].order <= x.order then [list[0]] + Placed(list[1..], x)
    else [x] + list
  }

  lemma {:induction false} PlacedMembers<V(!new)>(list: seq<Registered<V>>, x: Registered<V>)
    ensures forall m :: m in Placed(list, x) <==> m in list || m == x
  {
    if list == [] {
    } else {
      PlacedMembers(list[1..], x);
      assert list == [list[0]] + list[1..];
    }
  }

  lemma {:induction false} PlacedSorted<V(!new)>(list: seq<Registered<V>>, x: Registered<V>)
    requires Sorted(list) && SequencesBelow(list, x.sequence)
    ensures Sorted(Placed(list, x)) && SequencesBelow(Placed(list, x), x.sequence + 1)
  {
    PlacedMembers(list, x);
    if list == [] {
    } else {
      var tail := list[1..];
      assert list == [list[0]] + tail;
      if list[0].order <= x.order {
        PlacedSorted(tail, x);
        PlacedMembers(tail, x);
        assert ([list[0]] + Placed(tail, x))[1..] == Placed(tail, x);
      } else {
        forall m | m in list ensures Precedes(x, m) {
          assert m == list[0] || m in tail;
        }
        assert ([x] + list)[1..] == list;
      }
    }
  }

  /** Sorting after a push puts the newcomer in its place and leaves the others alone. */
  lemma {:induction false} SortPlaces<V(!new)>(list: seq<Registered<V>>, x: Registered<V>)
    requires Sorted(list) && SequencesBelow(list, x.sequence)
    ensures Sort(list + [x]) == Placed(list, x)
  {
    if list == [] {
      assert list + [x] == [x];
      assert Sort([x][1..]) == [];
      assert [x] + [] == [x];
    } else {
      var head, tail := list[0], list[1..];
      assert list == [head] + tail;
      assert (list + [x])[1..] == tail + [x];
      SortPlaces(tail, x);
      if head.order <= x.order {
        PlacedMembers(tail, x);
        InsertFirst(head, Placed(tail, x));
      } else {
        if tail != [] {
          assert tail[0] in tail && Precedes(head, tail[0]);
        }
        assert Placed(tail, x) == [x] + tail;
        assert ([x] + tail)[1..] == tail;
        InsertFirst(head, tail);
      }
    }
  }

  lemma InsertFirst<V(!new)>(x: Registered<V>, list: seq<Registered<V>>)
    requires BeforeAll(x, list)
    ensures Insert(x, list) == [x] + list
  {
  }

  lemma {:induction false} InsertSorted<V(!new)>(x: Registered<V>, list: seq<Registered<V>>)
    requires Sorted(list) && NewSequence(x, list)
    ensures Sorted(Insert(x, list)) && multiset(Insert(x, list)) == multiset(list) + multiset{x}
  {
    if list == [] || Precedes(x, list[0]) {
      forall m | m in list ensures Precedes(x, m) {
        assert list == [list[0]] + list[1..];
      }
      assert ([x] + list)[1..] == list;
    } else {
      var head, tail := list[0], list[1..];
      assert list == [head] + tail;
      InsertSorted(x, tail);
      var placed := Insert(x, tail);
      forall m | m in placed ensures Precedes(head, m) {
        assert m in multiset(placed);
        assert m in tail || m == x;
      }
      assert ([head] + placed)[1..] == placed;
    }
  }

  ghost predicate DistinctSequences<V(!new)>(list: seq<Registered<V>>) {
    list == [] || (NewSequence(list[0], list[1..]) && DistinctSequences(list[1..]))
  }

  lemma SameMembers<V(!new)>(a: seq<Registered<V>>, b: seq<Registered<V>>, m: Registered<V>)
    requires multiset(a) == multiset(b)
    ensures m in a <==> m in b
  {
    assert m in a <==> m in multiset(a);
    assert m in b <==> m in multiset(b);
  }

  ghost predicate NewSequence<V(!new)>(x: Registered<V>, list: seq<Registered<V>>) {
    forall m :: m in list ==> m.sequence != x.sequence
  }

  lemma NewInPermutation<V(!new)>(x: Registered<V>, a: seq<Registered<V>>, b: seq<Registered<V>>)
    requires multiset(a) == multiset(b) && NewSequence(x, b)
    ensures NewSequence(x, a)
  {
    forall m | m in a ensures m.sequence != x.sequence {
      SameMembers(a, b, m);
    }
  }

  lemma {:induction false} SortSorts<V(!new)>(list: seq<Registered<V>>)
    requires DistinctSequences(list)
    ensures Sorted(Sort(list)) && multiset(Sort(list)) == multiset(list)
  {
    if list == [] {
    } else {
      SortSorts(list[1..]);
      NewInPermutation(list[0], Sort(list[1..]), list[1..]);
      InsertSorted(list[0], Sort(list[1..]));
      TailMultiset(list);
    }
  }

  lemma TailMultiset<V(!new)>(a: seq<Registered<V>>)
    requires a != []
    ensures multiset(a[1..]) == multiset(a) - multiset{a[0]}
    ensures forall m :: m in a <==> m == a[0] || m in a[1..]
  {
    assert a == [a[0]] + a[1..];
  }

  /** Two sorted arrangements of the same entries start with the same one. */
  lemma SameHead<V(!new)>(a: seq<Registered<V>>, b: seq<Registered<V>>)
    requires Sorted(a) && Sorted(b) && multiset(a) == multiset(b) && a != [] && b != []
    ensures a[0] == b[0]
  {
    SameMembers(a, b, a[0]);
    SameMembers(a, b, b[0]);
    TailMultiset(a);
    TailMultiset(b);
    assert a[0] != b[0] ==> Precedes(b[0], a[0]);
    assert a[0] != b[0] ==> Precedes(a[0], b[0]);
  }

  lemma {:induction false} SortedUnique<V(!new)>(a: seq<Registered<V>>, b: seq<Registered<V>>)
    requires Sorted(a) && Sorted(b) && multiset(a) == multiset(b)
    ensures a == b
  {
    assert |a| == |multiset(a)| == |multiset(b)| == |b|;
    if a == [] {
    } else {
      SameHead(a, b);
      TailMultiset(a);
      TailMultiset(b);
      SortedUnique(a[1..], b[1..]);
      assert a == [a[0]] + a[1..] && b == [b[0]] + b[1..];
    }
  }

  /** There is only one way to put entries with distinct sequence numbers in increasing order, so it does not matter
      how the runtime sorts. */
  lemma SortIsTheOnlyOne<V(!new)>(list: seq<Registered<V>>, sorted: seq<Registered<V>>)
    requires DistinctSequences(list) && Sorted(sorted) && multiset(sorted) == multiset(list)
    ensures sorted == Sort(list)
  {
    SortSorts(list);
    SortedUnique(sorted, Sort(list));
  }

  lemma {:induction false} RemoveFirstSorted<V(!new)>(list: seq<Registered<V>>, name: string)
    requires Sorted(list)
    ensures Sorted(RemoveFirst(list, name))
    ensures forall m :: m in RemoveFirst(list, name) ==> m in list
  {
    if list == [] {
    } else {
      var rest := RemoveFirst(list[1..], name);
      RemoveFirstSorted(list[1..], name);
      assert list == [list[0]] + list[1..];
      assert ([list[0]] + rest)[1..] == rest;
    }
  }

  lemma {:induction false} RemoveFirstAt<V(!new)>(list: seq<Registered<V>>, name: string, index: nat)
    requires index <= |list| && forall i :: 0 <= i < index ==> list[i].name != name
    requires index < |list| ==> list[index].name == name
    ensures RemoveFirst(list, name) == if index < |list| then list[..index] + list[index + 1..] else list
  {
    if index == 0 {
    } else {
      RemoveFirstAt(list[1..], name, index - 1);
      if index < |list| {
        assert list[..index] == [list[0]] + list[1..][..index - 1];
        assert list[index + 1..] == list[1..][index..];
        assert list[..index] + list[index + 1..] == [list[0]] + (list[1..][..index - 1] + list[1..][index..]);
      }
    }
  }

  /** An entry of the same name that runs before `x`. */
  ghost predicate Shadowed<V(!new)>(list: seq<Registered<V>>, x: Registered<V>) {
    exists m :: m in list && m.name == x.name && m.order <= x.order
  }

  /** Registering and then removing by name gives the list back exactly when no entry of that name runs before the
      newcomer; otherwise the older entry goes and the newcomer stays. */
  lemma {:induction false} UnregisterRestoresExactly<V(!new)>(list: seq<Registered<V>>, x: Registered<V>)
    requires Sorted(list) && SequencesBelow(list, x.sequence)
    ensures RemoveFirst(Placed(list, x), x.name) == list <==> !Shadowed(list, x)
    ensures x in RemoveFirst(Placed(list, x), x.name) <==> Shadowed(list, x)
  {
    if list == [] {
      assert RemoveFirst([x], x.name) == [x][1..] == [];
    } else {
      var head, tail := list[0], list[1..];
      assert list == [head] + tail;
      forall m | m in tail ensures head.order <= m.order {
        assert Precedes(head, m);
      }
      if head.order > x.order {
        assert RemoveFirst([x] + list, x.name) == list;
      } else {
        var placed := Placed(tail, x);
        PlacedMembers(tail, x);
        assert ([head] + placed)[1..] == placed;
        if head.name == x.name {
          assert Shadowed(list, x);
          assert x in placed;
        } else {
          UnregisterRestoresExactly(tail, x);
          assert Shadowed(list, x) <==> Shadowed(tail, x);
          var rest := RemoveFirst(placed, x.name);
          assert RemoveFirst([head] + placed, x.name) == [head] + rest;
          assert ([head] + rest)[1..] == rest;
        }
      }
    }
  }

  function Plain<V(!new)>(name: string, sequence: nat): Registered<V> {
    Registered(name, 0.0, sequence, None, None, None)
  }

  /** Two entries of one name: unregistering the newer one removes the older. */
  lemma UnregisterTakesOlder<V(!new)>(name: string)
    ensures var older, newer: Registered<V> := Plain(name, 0), Plain(name, 1);
            RemoveFirst(Placed([older], newer), name) == [newer] != [older]
  {
    var older, newer: Registered<V> := Plain(name, 0), Plain(name, 1);
    assert Placed([older][1..], newer) == [newer];
    assert Placed([older], newer) == [older] + [newer];
    assert ([older] + [newer])[1..] == [newer];
    assert [newer][0].sequence != [older][0].sequence;
  }

  // ---------------------------------------------------------------------------
  // Any run of registrations and removals
  // ---------------------------------------------------------------------------

  datatype Change<!V> = Used(m: Middleware<V>) | Removed(name: string) | Cleared

  datatype State<!V> = State(list: seq<Registered<V>>, nextSequence: nat)

  function Apply<V(!new)>(s: State<V>, change: Change<V>): State<V> {
    match change
    case Used(m) =>
      if m.name == "" then s else State(Sort(s.list + [Register(m, s.nextSequence)]), s.nextSequence + 1)
    case Removed(name) => s.(list := RemoveFirst(s.list, name))
    case Cleared => s.(list := [])
  }

  function ApplyAll<V(!new)>(s: State<V>, changes: seq<Change<V>>): State<V>
    decreases |changes|
  {
    if changes == [] then s else ApplyAll(Apply(s, changes[0]), changes[1..])
  }

  /** After any run the list is strictly increasing in (order, registration sequence). */
  lemma {:induction false} AlwaysSorted<V(!new)>(s: State<V>, changes: seq<Change<V>>)
    requires Sorted(s.list) && SequencesBelow(s.list, s.nextSequence)
    ensures var t := ApplyAll(s, changes);
            Sorted(t.list) && SequencesBelow(t.list, t.nextSequence)
    decreases |changes|
  {
    if changes == [] {
    } else {
      match changes[0] {
        case Used(m) =>
          SortPlaces(s.list, Register(m, s.nextSequence));
          PlacedSorted(s.list, Register(m, s.nextSequence));
        case Removed(name) => RemoveFirstSorted(s.list, name);
        case Cleared =>
      }
      AlwaysSorted(Apply(s, changes[0]), changes[1..]);
    }
  }
}
