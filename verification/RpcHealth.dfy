/**
 * Health metrics of RPC endpoints (src/monitoring/rpcHealthMonitor.ts): what an endpoint reports is a fold over the
 * outcomes of its checks.
 */
module RpcHealth {
  import opened Common

  /** A response with its latency and whether its status says healthy, or says nothing; or an error or timeout. */
  datatype Check = Responded(latencyMs: int, healthy: bool) | Failed
  datatype HealthState = Healthy | Degraded | Unhealthy | Unknown

  datatype Config = Config(degradedLatencyMs: int, unhealthyAfterFailures: int)

  datatype Metrics = Metrics(totalChecks: nat, successfulChecks: nat, failedChecks: nat, consecutiveFailures: nat,
                             lastLatencyMs: Option<int>, minLatencyMs: Option<int>, maxLatencyMs: Option<int>,
                             averageLatencyMs: Option<real>, availabilityPercentage: real)
  datatype Status = Status(state: HealthState, available: bool, metrics: Metrics)

  // ---------------------------------------------------------------------------
  // Folds over the history
  // ---------------------------------------------------------------------------

  /** The latencies of the responses, oldest first. */
  function Latencies(history: seq<Check>): seq<int> {
    if history == [] then []
    else
      var before, last := Latencies(history[..|history| - 1]), history[|history| - 1];
      if last.Responded? then before + [last.latencyMs] else before
  }

  function Failures(history: seq<Check>): nat {
    if history == [] then 0
    else Failures(history[..|history| - 1]) + if history[|history| - 1].Failed? then 1 else 0
  }

  /** The length of the run of failures at the end. */
  function TrailingFailures(history: seq<Check>): nat {
    if history == [] || history[|history| - 1].Responded? then 0 else 1 + TrailingFailures(history[..|history| - 1])
  }

  function Sum(samples: seq<int>): int {
    if samples == [] then 0 else Sum(samples[..|samples| - 1]) + samples[|samples| - 1]
  }

  ghost predicate IsLeast(m: Option<int>, samples: seq<int>) {
    if samples == [] then m.None? else m.Some? && m.value in samples && forall x :: x in samples ==> m.value <= x
  }

  ghost predicate IsGreatest(m: Option<int>, samples: seq<int>) {
    if samples == [] then m.None? else m.Some? && m.value in samples && forall x :: x in samples ==> x <= m.value
  }

  function StateAfter(c: Config, history: seq<Check>): HealthState {
    if history == [] then Unknown
    else
      match history[|history| - 1]
      case Responded(latencyMs, healthy) =>
        if !healthy then Unhealthy else if latencyMs > c.degradedLatencyMs then Degraded else Healthy
      case Failed => if TrailingFailures(history) >= c.unhealthyAfterFailures then Unhealthy else Degraded
  }

  /** The metrics that a history calls for. */
  ghost predicate Reflects(m: Metrics, history: seq<Check>) {
    var samples := Latencies(history);
    && m.totalChecks == |history|
    && m.successfulChecks == |samples|
    && m.failedChecks == Failures(history)
    && m.consecutiveFailures == TrailingFailures(history)
    && m.lastLatencyMs == (if samples == [] then None else Some(samples[|samples| - 1]))
    && IsLeast(m.minLatencyMs, samples) && IsGreatest(m.maxLatencyMs, samples)
    && m.averageLatencyMs == (if samples == [] then None else Some(Sum(samples) as real / |samples| as real))
    && m.availabilityPercentage == (if history == [] then 0.0 else |samples| as real / |history| as real * 100.0)
  }

  ghost predicate StatusReflects(c: Config, s: Status, history: seq<Check>) {
    && Reflects(s.metrics, history)
    && s.state == StateAfter(c, history)
    && s.available == (history != [] && history[|history| - 1].Responded? && history[|history| - 1].healthy)
  }

  function Lesser(m: Option<int>, latency: int): int {
    if m.None? || latency < m.value then latency else m.value
  }

  function Greater(m: Option<int>, latency: int): int {
    if m.None? || latency > m.value then latency else m.value
  }

  lemma ExtremesSnoc(least: Option<int>, greatest: Option<int>, samples: seq<int>, latency: int)
    requires IsLeast(least, samples) && IsGreatest(greatest, samples)
    ensures IsLeast(Some(Lesser(least, latency)), samples + [latency])
    ensures IsGreatest(Some(Greater(greatest, latency)), samples + [latency])
  {
  }

  method Average(samples: seq<int>) returns (average: real)
    requires samples != []
    ensures average == Sum(samples) as real / |samples| as real
  {
    var sum := 0;
    for i := 0 to |samples|
      invariant sum == Sum(samples[..i])
    {
      assert samples[..i + 1][..i] == samples[..i];
      sum := sum + samples[i];
    }
    assert samples[..|samples|] == samples;
    average := sum as real / |samples| as real;
  }

  class Endpoint {
    const config: Config
    var latencySamples: seq<int>
    var status: Status
    /** The outcomes of the checks so far. */
    ghost var history: seq<Check>

    ghost predicate Valid()
      reads this
    {
      latencySamples == Latencies(history) && StatusReflects(config, status, history)
    }

    constructor (config: Config)
      ensures Valid() && history == [] && this.config == config
    {
      this.config := config;
      latencySamples := [];
      history := [];
      status := Status(Unknown, false, Metrics(0, 0, 0, 0, None, None, None, None, 0.0));
    }

    method CheckEndpoint(outcome: Check)
      requires Valid()
      modifies this
      ensures Valid() && history == old(history) + [outcome]
    {
      if outcome.Failed? {
        RecordFailure();
        return;
      }
      var state := if !outcome.healthy then Unhealthy
                   else if outcome.latencyMs > config.degradedLatencyMs then Degraded else Healthy;
      RecordSuccess(outcome.latencyMs, state, outcome.healthy);
    }

    method RecordSuccess(latencyMs: int, state: HealthState, ghost healthy: bool)
      requires Valid()
      requires state == StateAfter(config, history + [Responded(latencyMs, healthy)])
      modifies this
      ensures Valid() && history == old(history) + [Responded(latencyMs, healthy)]
    {
      HistorySnoc(history, Responded(latencyMs, healthy));
      var m := status.metrics;
      ExtremesSnoc(m.minLatencyMs, m.maxLatencyMs, latencySamples, latencyMs);
      latencySamples := latencySamples + [latencyMs];
      m := m.(totalChecks := m.totalChecks + 1, successfulChecks := m.successfulChecks + 1, consecutiveFailures := 0,
              lastLatencyMs := Some(latencyMs));
      m := m.(minLatencyMs := Some(Lesser(m.minLatencyMs, latencyMs)), maxLatencyMs := Some(Greater(m.maxLatencyMs, latencyMs)));
      var average := Average(latencySamples);
      m := m.(averageLatencyMs := Some(average),
              availabilityPercentage := m.successfulChecks as real / m.totalChecks as real * 100.0);
      history := history + [Responded(latencyMs, healthy)];
      status := Status(state, state != Unhealthy, m);
    }

    method RecordFailure()
      requires Valid()
      modifies this
      ensures Valid() && history == old(history) + [Failed]
    {
      HistorySnoc(history, Failed);
      var m := status.metrics;
      m := m.(totalChecks := m.totalChecks + 1, failedChecks := m.failedChecks + 1,
              consecutiveFailures := m.consecutiveFailures + 1);
      m := m.(availabilityPercentage := m.successfulChecks as real / m.totalChecks as real * 100.0);
      history := history + [Failed];
      status := Status(if m.consecutiveFailures >= config.unhealthyAfterFailures then Unhealthy else Degraded, false, m);
    }
  }

  lemma HistorySnoc(history: seq<Check>, outcome: Check)
    ensures var h := history + [outcome];
            && Latencies(h) == Latencies(history) + (if outcome.Responded? then [outcome.latencyMs] else [])
            && Failures(h) == Failures(history) + (if outcome.Failed? then 1 else 0)
            && TrailingFailures(h) == (if outcome.Failed? then 1 + TrailingFailures(history) else 0)
  {
  }

  // ---------------------------------------------------------------------------
  // What the metrics mean
  // ---------------------------------------------------------------------------

  lemma {:induction false} ChecksAddUp(history: seq<Check>)
    ensures |Latencies(history)| + Failures(history) == |history|
    ensures TrailingFailures(history) <= Failures(history)
  {
    if history == [] {
    } else {
      ChecksAddUp(history[..|history| - 1]);
    }
  }

  ghost predicate EndsInFailures(history: seq<Check>, n: int) {
    n <= |history| && forall i :: 0 <= i < |history| && |history| - n <= i ==> history[i].Failed?
  }

  lemma {:induction false} TrailingMeans(history: seq<Check>, n: int)
    ensures EndsInFailures(history, n) <==> n <= TrailingFailures(history)
  {
    if n > 0 && history != [] {
      var front := history[..|history| - 1];
      TrailingMeans(front, n - 1);
      if history[|history| - 1].Failed? && EndsInFailures(front, n - 1) {
        assert forall i :: 0 <= i < |history| && |history| - n <= i ==> i < |front| ==> history[i] == front[i];
        assert EndsInFailures(history, n);
      }
      if EndsInFailures(history, n) {
        assert history[|history| - 1].Failed?;
        assert forall i :: 0 <= i < |front| ==> front[i] == history[i];
        assert EndsInFailures(front, n - 1);
      }
    }
  }

  /** The state is decided by the last check: a response is healthy up to and including the latency limit and degraded
      above it, or unhealthy if it says so; a failure is unhealthy exactly when it ends a run of failures of the given
      length. Only a healthy response makes an endpoint available. */
  lemma StateExactly(c: Config, s: Status, history: seq<Check>)
    requires StatusReflects(c, s, history) && history != []
    ensures var last := history[|history| - 1];
            && (s.state == Healthy <==> last.Responded? && last.healthy && last.latencyMs <= c.degradedLatencyMs)
            && (s.state == Degraded <==>
                  (last.Responded? && last.healthy && last.latencyMs > c.degradedLatencyMs)
                  || (last.Failed? && !EndsInFailures(history, c.unhealthyAfterFailures)))
            && (s.state == Unhealthy <==>
                  (last.Responded? && !last.healthy) || (last.Failed? && EndsInFailures(history, c.unhealthyAfterFailures)))
            && (s.available <==> last.Responded? && last.healthy)
  {
    TrailingMeans(history, c.unhealthyAfterFailures);
  }

  /** Histories can be put together: what the metrics count and list comes from the parts. */
  lemma {:induction false} HistoriesJoin(a: seq<Check>, b: seq<Check>)
    ensures Latencies(a + b) == Latencies(a) + Latencies(b)
    ensures Failures(a + b) == Failures(a) + Failures(b)
  {
    if b == [] {
      assert a + b == a;
    } else {
      HistoriesJoin(a, b[..|b| - 1]);
      assert (a + b)[..|a + b| - 1] == a + b[..|b| - 1];
    }
  }

  /** A response counts with its latency, and an error counts as a failure. */
  lemma OneCheck(outcome: Check)
    ensures Latencies([outcome]) == (match outcome case Responded(latencyMs, _) => [latencyMs] case Failed => [])
    ensures Failures([outcome]) == (match outcome case Responded(_, _) => 0 case Failed => 1)
  {
    assert [outcome][..0] == [];
  }

  lemma {:induction false} SumBounds(samples: seq<int>, low: int, high: int)
    requires forall x :: x in samples ==> low <= x <= high
    ensures low * |samples| <= Sum(samples) <= high * |samples|
  {
    if samples == [] {
    } else {
      var front, last := samples[..|samples| - 1], samples[|samples| - 1];
      assert last in samples;
      forall x | x in front ensures low <= x <= high {
        assert x in samples;
      }
      SumBounds(front, low, high);
      assert low * |samples| == low * |front| + low && high * |samples| == high * |front| + high;
    }
  }

  lemma AverageBounds(sum: int, n: nat, low: int, high: int)
    requires n > 0 && low * n <= sum <= high * n
    ensures low as real <= sum as real / n as real <= high as real
  {
  }

  lemma ShareBounds(k: nat, n: nat, share: real)
    requires k <= n && n > 0 && share == k as real / n as real
    ensures 0.0 <= share <= 1.0 && (share == 1.0 <==> k == n)
  {
  }

  /** After any history: successes and failures add up to the checks, the average lies between the extremes, and an
      endpoint that is available is healthy or degraded. */
  lemma StatusMeans(c: Config, s: Status, history: seq<Check>)
    requires StatusReflects(c, s, history)
    ensures var m := s.metrics;
            && m.totalChecks == m.successfulChecks + m.failedChecks
            && m.consecutiveFailures <= m.failedChecks
            && (m.successfulChecks > 0 ==>
                  && m.minLatencyMs.Some? && m.averageLatencyMs.Some? && m.maxLatencyMs.Some?
                  && m.minLatencyMs.value as real <= m.averageLatencyMs.value <= m.maxLatencyMs.value as real)
            && (s.available ==> s.state in {Healthy, Degraded})
            && (s.state == Healthy ==> s.available)
            && (s.state == Unknown <==> m.totalChecks == 0)
            && 0.0 <= m.availabilityPercentage <= 100.0
            && (m.totalChecks > 0 ==> (m.availabilityPercentage == 100.0 <==> m.failedChecks == 0))
  {
    ChecksAddUp(history);
    if history != [] {
      ShareBounds(|Latencies(history)|, |history|, |Latencies(history)| as real / |history| as real);
    }
    var samples := Latencies(history);
    if samples != [] {
      var low, high := s.metrics.minLatencyMs.value, s.metrics.maxLatencyMs.value;
      SumBounds(samples, low, high);
      AverageBounds(Sum(samples), |samples|, low, high);
    }
  }

  // ---------------------------------------------------------------------------
  // The report
  // ---------------------------------------------------------------------------

  datatype Summary = Summary(total: nat, healthy: nat, degraded: nat, unhealthy: nat, unknown: nat, available: nat)

  ghost predicate Coherent(s: Status) {
    s.available ==> s.state in {Healthy, Degraded}
  }

  /** The states of the endpoints add up to all of them, and the available ones are among the healthy and degraded. */
  method GetHealthReport(statuses: seq<Status>) returns (r: Summary)
    requires forall s :: s in statuses ==> Coherent(s)
    ensures r.total == |statuses| == r.healthy + r.degraded + r.unhealthy + r.unknown
    ensures r.available == CountAvailable(statuses) <= r.healthy + r.degraded
    ensures r.healthy == Count(statuses, Healthy) && r.degraded == Count(statuses, Degraded)
    ensures r.unhealthy == Count(statuses, Unhealthy) && r.unknown == Count(statuses, Unknown)
  {
    r := Summary(0, 0, 0, 0, 0, 0);
    for i := 0 to |statuses|
      invariant r.total == i == r.healthy + r.degraded + r.unhealthy + r.unknown
      invariant r.available == CountAvailable(statuses[..i]) <= r.healthy + r.degraded
      invariant r.healthy == Count(statuses[..i], Healthy) && r.degraded == Count(statuses[..i], Degraded)
      invariant r.unhealthy == Count(statuses[..i], Unhealthy) && r.unknown == Count(statuses[..i], Unknown)
    {
      var s := statuses[i];
      assert Coherent(s);
      assert statuses[..i + 1][..i] == statuses[..i];
      r := r.(total := r.total + 1, available := r.available + if s.available then 1 else 0);
      match s.state {
        case Healthy => r := r.(healthy := r.healthy + 1);
        case Degraded => r := r.(degraded := r.degraded + 1);
        case Unhealthy => r := r.(unhealthy := r.unhealthy + 1);
        case Unknown => r := r.(unknown := r.unknown + 1);
      }
    }
    assert statuses[..|statuses|] == statuses;
  }

  function Count(statuses: seq<Status>, state: HealthState): nat {
    if statuses == [] then 0
    else Count(statuses[..|statuses| - 1], state) + if statuses[|statuses| - 1].state == state then 1 else 0
  }

  function CountAvailable(statuses: seq<Status>): nat {
    if statuses == [] then 0
    else CountAvailable(statuses[..|statuses| - 1]) + if statuses[|statuses| - 1].available then 1 else 0
  }

  /** Reports can be put together, and one endpoint counts in its own state. */
  lemma {:induction false} ReportsJoin(a: seq<Status>, b: seq<Status>, state: HealthState)
    ensures Count(a + b, state) == Count(a, state) + Count(b, state)
    ensures CountAvailable(a + b) == CountAvailable(a) + CountAvailable(b)
  {
    if b == [] {
      assert a + b == a;
    } else {
      ReportsJoin(a, b[..|b| - 1], state);
      assert (a + b)[..|a + b| - 1] == a + b[..|b| - 1];
    }
  }

  lemma OneEndpoint(s: Status, state: HealthState)
    ensures Count([s], state) == (if s.state == state then 1 else 0)
    ensures CountAvailable([s]) == (if s.available then 1 else 0)
  {
    assert [s][..0] == [];
  }
}
