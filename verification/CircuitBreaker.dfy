/**
  The three-state circuit breaker of the voice switch, specified by the log of
  the events it has seen.  A guarded call is two atomic events: `Begin`, up to
  the only suspension point of an admitted call, and `End`, from its completion
  on.  Any number of calls overlap, so an `End` may meet a state other than the
  one its `Begin` left.  A call is named by the position of its `Begin`.
*/
module BreakerLog {
  import opened Basics

  datatype CircuitState = Closed | Open | HalfOpen

  /** No bound is put on the numbers: the source accepts any. */
  datatype Config = Config(
    failureThreshold: int,
    successThreshold: int,
    timeout: real,
    halfOpenMaxCalls: int,
    hasFallback: bool)

  /** `Unexpected` is an exception outside `expected_exception`, or a cancellation. */
  datatype Outcome = Success | Failure | Unexpected

  datatype Event =
    | Begin(at: real)
    | End(call: nat, outcome: Outcome, at: real)
    | Reset(at: real)

  datatype Metrics = Metrics(
    total: nat,
    successful: nat,
    failed: nat,
    rejected: nat,
    closedToOpen: nat,
    openToHalfOpen: nat,
    halfOpenToClosed: nat,
    halfOpenToOpen: nat)

  datatype Breaker = Breaker(
    state: CircuitState,
    failures: int,
    successes: int,
    lastFailure: Option<real>,
    halfOpenCalls: int,
    metrics: Metrics)

  const ZERO: Metrics := Metrics(0, 0, 0, 0, 0, 0, 0, 0)
  const FRESH: Breaker := Breaker(Closed, 0, 0, None, 0, ZERO)

  function CountTransition(m: Metrics, from: CircuitState, to: CircuitState): Metrics {
    if from == Closed && to == Open then m.(closedToOpen := m.closedToOpen + 1)
    else if from == Open && to == HalfOpen then m.(openToHalfOpen := m.openToHalfOpen + 1)
    else if from == HalfOpen && to == Closed then m.(halfOpenToClosed := m.halfOpenToClosed + 1)
    else if from == HalfOpen && to == Open then m.(halfOpenToOpen := m.halfOpenToOpen + 1)
    else m
  }

  function Transition(b: Breaker, to: CircuitState): Breaker {
    if b.state == to then b else
      var m := CountTransition(b.metrics, b.state, to);
      match to
      case Closed => Breaker(Closed, 0, 0, b.lastFailure, 0, m)
      case HalfOpen => Breaker(HalfOpen, b.failures, 0, b.lastFailure, 0, m)
      case Open => Breaker(Open, b.failures, b.successes, b.lastFailure, b.halfOpenCalls, m)
  }

  function CountSuccess(m: Metrics): Metrics {
    m.(total := m.total + 1, successful := m.successful + 1)
  }

  function CountFailure(m: Metrics): Metrics {
    m.(total := m.total + 1, failed := m.failed + 1)
  }

  function CountRejection(m: Metrics): Metrics {
    m.(rejected := m.rejected + 1)
  }

  function OnSuccess(cfg: Config, b: Breaker): Breaker {
    var c := b.(metrics := CountSuccess(b.metrics));
    match b.state
    case HalfOpen =>
      var d := c.(successes := b.successes + 1);
      if d.successes >= cfg.successThreshold then Transition(d, Closed) else d
    case Closed => c.(failures := 0)
    case Open => c
  }

  function OnFailure(cfg: Config, b: Breaker, at: real): Breaker {
    var c := b.(metrics := CountFailure(b.metrics), lastFailure := Some(at));
    match b.state
    case HalfOpen => Transition(c, Open)
    case Closed =>
      var d := c.(failures := b.failures + 1);
      if d.failures >= cfg.failureThreshold then Transition(d, Open) else d
    case Open => c
  }

  function CheckOpen(cfg: Config, b: Breaker, at: real): Breaker {
    if b.state == Open && b.lastFailure.Some? && at - b.lastFailure.value >= cfg.timeout
    then Transition(b, HalfOpen)
    else b
  }

  predicate Admits(cfg: Config, b: Breaker, at: real) {
    var c := CheckOpen(cfg, b, at);
    c.state == Closed || (c.state == HalfOpen && c.halfOpenCalls < cfg.halfOpenMaxCalls)
  }

  function AfterBegin(cfg: Config, b: Breaker, at: real): Breaker {
    var c := CheckOpen(cfg, b, at);
    if !Admits(cfg, b, at) then c.(metrics := CountRejection(c.metrics))
    else if c.state == HalfOpen then c.(halfOpenCalls := c.halfOpenCalls + 1)
    else c
  }

  function AfterEnd(cfg: Config, b: Breaker, outcome: Outcome, at: real): Breaker {
    var c := match outcome
      case Success => OnSuccess(cfg, b)
      case Failure => OnFailure(cfg, b, at)
      case Unexpected => b;
    if c.state == HalfOpen then c.(halfOpenCalls := c.halfOpenCalls - 1) else c
  }

  function Step(cfg: Config, b: Breaker, e: Event): Breaker {
    match e
    case Begin(at) => AfterBegin(cfg, b, at)
    case End(_, outcome, at) => AfterEnd(cfg, b, outcome, at)
    case Reset(_) => FRESH
  }

  /** The breaker after the first `n` events of the log. */
  function StateAt(cfg: Config, log: seq<Event>, n: nat): Breaker
    requires n <= |log|
  {
    if n == 0 then FRESH else Step(cfg, StateAt(cfg, log, n - 1), log[n - 1])
  }

  predicate Admitted(cfg: Config, log: seq<Event>, k: nat)
    requires k < |log|
  {
    log[k].Begin? && Admits(cfg, StateAt(cfg, log, k), log[k].at)
  }

  predicate EndsCall(e: Event, k: nat) {
    e.End? && e.call == k
  }

  /** Call `k` has completed within the first `n` events. */
  predicate Ended(log: seq<Event>, k: nat, n: nat)
    requires n <= |log|
  {
    exists e :: 0 <= e < n && EndsCall(log[e], k)
  }

  /** A log that a non-decreasing clock and calls ending once, after an admitted begin, can produce. */
  ghost predicate Legal(cfg: Config, log: seq<Event>) {
    && (forall i, j :: 0 <= i < j < |log| ==> log[i].at <= log[j].at)
    && (forall e :: 0 <= e < |log| && log[e].End? ==>
          log[e].call < e && Admitted(cfg, log, log[e].call) && !Ended(log, log[e].call, e))
  }

  /** The number of events up to and including the one that began the current stay in one state. */
  function Episode(cfg: Config, log: seq<Event>, n: nat): (start: nat)
    requires n <= |log|
    ensures start <= n
  {
    if n == 0 then 0
    else if log[n - 1].Reset? || StateAt(cfg, log, n - 1).state != StateAt(cfg, log, n).state then n
    else Episode(cfg, log, n - 1)
  }

  predicate EndsWith(e: Event, o: Outcome) {
    e.End? && e.outcome == o
  }

  /** The failures of this episode that no success of it follows. */
  ghost function TrailingFailures(cfg: Config, log: seq<Event>, n: nat): set<nat>
    requires n <= |log|
  {
    set e: nat | Episode(cfg, log, n) <= e < n && EndsWith(log[e], Failure)
                 && forall s :: e < s < n ==> !EndsWith(log[s], Success)
  }

  ghost function EpisodeSuccesses(cfg: Config, log: seq<Event>, n: nat): set<nat>
    requires n <= |log|
  {
    set e: nat | Episode(cfg, log, n) <= e < n && EndsWith(log[e], Success)
  }

  /** The calls in flight that were admitted in this episode, by the event that began it included. */
  ghost function Probes(cfg: Config, log: seq<Event>, n: nat): set<nat>
    requires n <= |log|
  {
    set k: nat | Episode(cfg, log, n) <= k + 1 <= n && Admitted(cfg, log, k) && !Ended(log, k, n)
  }

  /** The completions, in this episode, of calls admitted before it. */
  ghost function Stragglers(cfg: Config, log: seq<Event>, n: nat): set<nat>
    requires n <= |log|
  {
    set e: nat | Episode(cfg, log, n) <= e < n && log[e].End? && log[e].call + 1 < Episode(cfg, log, n)
  }

  /** The number of events up to and including the last reset. */
  function LastReset(log: seq<Event>, n: nat): (start: nat)
    requires n <= |log|
    ensures start <= n
  {
    if n == 0 || log[n - 1].Reset? then n else LastReset(log, n - 1)
  }

  ghost function EndsSinceReset(log: seq<Event>, n: nat, o: Outcome): set<nat>
    requires n <= |log|
  {
    set e: nat | LastReset(log, n) <= e < n && EndsWith(log[e], o)
  }

  /** Event `e` is the latest failure since the last reset, whatever the state it met. */
  ghost predicate LatestFailure(log: seq<Event>, n: nat, e: nat)
    requires n <= |log|
  {
    LastReset(log, n) <= e < n && EndsWith(log[e], Failure) && forall f :: e < f < n ==> !EndsWith(log[f], Failure)
  }

  /** The events since the last reset that took the breaker from one state to the other. */
  ghost function MovesSinceReset(cfg: Config, log: seq<Event>, n: nat, from: CircuitState, to: CircuitState): set<nat>
    requires n <= |log|
  {
    Marked(MoveFlags(cfg, log, from, to), LastReset(log, n), n)
  }

  /** Which events take the breaker from one state to the other. */
  function MoveFlags(cfg: Config, log: seq<Event>, from: CircuitState, to: CircuitState): seq<bool> {
    seq(|log|, e requires 0 <= e < |log| => Moves(cfg, log, e, from, to))
  }

  predicate Moves(cfg: Config, log: seq<Event>, e: nat, from: CircuitState, to: CircuitState)
    requires e < |log|
  {
    StateAt(cfg, log, e).state == from && StateAt(cfg, log, e + 1).state == to
  }

  ghost function RejectedSinceReset(cfg: Config, log: seq<Event>, n: nat): set<nat>
    requires n <= |log|
  {
    set e: nat | LastReset(log, n) <= e < n && log[e].Begin? && !Admitted(cfg, log, e)
  }

  /** The clock when the metrics were last zero: the first event, or the last reset. */
  function Origin(log: seq<Event>, n: nat): real
    requires 0 < n <= |log|
  {
    if n == 1 || log[n - 1].Reset? then log[n - 1].at else Origin(log, n - 1)
  }
}

/** What every run of the breaker keeps, for every configuration and every overlap of calls. */
module BreakerTheorems {
  import opened Basics
  import opened BreakerLog

  /** One event's effect on the two counters, by the states before and after it. */
  lemma StepOnCounters(cfg: Config, b: Breaker, e: Event)
    ensures var c := Step(cfg, b, e);
      && (c.state == Closed ==>
            c.failures == (if e.Reset? || b.state != Closed || EndsWith(e, Success) then 0
                           else if EndsWith(e, Failure) then b.failures + 1 else b.failures))
      && (c.state == Closed && EndsWith(e, Failure) ==> c.failures < cfg.failureThreshold)
      && (c.state != Closed ==>
            if b.state != Closed then c.failures == b.failures
            else c.failures == b.failures + 1 >= cfg.failureThreshold && EndsWith(e, Failure))
      && (c.state == HalfOpen ==>
            if b.state != HalfOpen then c.successes == 0 && e.Begin?
            else if EndsWith(e, Success) then c.successes == b.successes + 1 < cfg.successThreshold
            else c.successes == b.successes)
  {
  }

  lemma CountersAreTraceQuantities(cfg: Config, log: seq<Event>, n: nat)
    requires n <= |log|
    ensures var b := StateAt(cfg, log, n);
      && (b.state == Closed ==>
            b.failures == |TrailingFailures(cfg, log, n)| < Max(1, cfg.failureThreshold))
      && (b.state != Closed ==> b.failures == Max(1, cfg.failureThreshold))
      && (b.state == HalfOpen ==>
            b.successes == |EpisodeSuccesses(cfg, log, n)| < Max(1, cfg.successThreshold))
  {
    FailureCounter(cfg, log, n);
    if StateAt(cfg, log, n).state == HalfOpen {
      SuccessCounter(cfg, log, n);
    }
  }

  lemma {:induction false} FailureCounter(cfg: Config, log: seq<Event>, n: nat)
    requires n <= |log|
    ensures var b := StateAt(cfg, log, n);
      if b.state == Closed then b.failures == |TrailingFailures(cfg, log, n)| < Max(1, cfg.failureThreshold)
      else b.failures == Max(1, cfg.failureThreshold)
  {
    if n == 0 {
    } else {
      FailureCounter(cfg, log, n - 1);
      FailureRunStep(cfg, log, n);
      StepOnCounters(cfg, StateAt(cfg, log, n - 1), log[n - 1]);
    }
  }

  lemma {:induction false} SuccessCounter(cfg: Config, log: seq<Event>, n: nat)
    requires n <= |log| && StateAt(cfg, log, n).state == HalfOpen
    ensures StateAt(cfg, log, n).successes == |EpisodeSuccesses(cfg, log, n)| < Max(1, cfg.successThreshold)
  {
    StepOnCounters(cfg, StateAt(cfg, log, n - 1), log[n - 1]);
    SuccessCountStep(cfg, log, n);
    if StateAt(cfg, log, n - 1).state == HalfOpen {
      SuccessCounter(cfg, log, n - 1);
    }
  }

  lemma FailureRunStep(cfg: Config, log: seq<Event>, n: nat)
    requires 0 < n <= |log|
    ensures
      TrailingFailures(cfg, log, n) ==
      if Episode(cfg, log, n) == n || EndsWith(log[n - 1], Success) then {}
      else if EndsWith(log[n - 1], Failure) then TrailingFailures(cfg, log, n - 1) + {n - 1}
      else TrailingFailures(cfg, log, n - 1)
    ensures n - 1 !in TrailingFailures(cfg, log, n - 1)
  {
  }

  lemma SuccessCountStep(cfg: Config, log: seq<Event>, n: nat)
    requires 0 < n <= |log|
    ensures
      EpisodeSuccesses(cfg, log, n) ==
      if Episode(cfg, log, n) == n then {}
      else if EndsWith(log[n - 1], Success) then EpisodeSuccesses(cfg, log, n - 1) + {n - 1}
      else EpisodeSuccesses(cfg, log, n - 1)
    ensures n - 1 !in EpisodeSuccesses(cfg, log, n - 1)
  {
  }

  /** A closed circuit opens exactly on the failure that completes an unbroken run of them. */
  lemma OpensExactlyOnThresholdFailure(cfg: Config, log: seq<Event>, n: nat)
    requires n < |log| && StateAt(cfg, log, n).state == Closed
    ensures StateAt(cfg, log, n + 1).state == Open <==>
              EndsWith(log[n], Failure)
              && |TrailingFailures(cfg, log, n)| + 1 == Max(1, cfg.failureThreshold)
    ensures StateAt(cfg, log, n + 1).state != HalfOpen
  {
    CountersAreTraceQuantities(cfg, log, n);
  }

  /** A half-open circuit closes exactly on its last required success and reopens on any failure. */
  lemma LeavesHalfOpenExactly(cfg: Config, log: seq<Event>, n: nat)
    requires n < |log| && StateAt(cfg, log, n).state == HalfOpen && !log[n].Reset?
    ensures StateAt(cfg, log, n + 1).state == Closed <==>
              EndsWith(log[n], Success)
              && |EpisodeSuccesses(cfg, log, n)| + 1 == Max(1, cfg.successThreshold)
    ensures StateAt(cfg, log, n + 1).state == Open <==> EndsWith(log[n], Failure)
  {
    CountersAreTraceQuantities(cfg, log, n);
  }

  /** Transitions of each kind balance: what entered a state and has not left it is there now. */
  ghost predicate FlowBalanced(b: Breaker) {
    match b case Breaker(state, _, _, _, _, m) =>
      && m.closedToOpen - m.halfOpenToClosed == (if state == Closed then 0 else 1)
      && m.openToHalfOpen - m.halfOpenToClosed - m.halfOpenToOpen == (if state == HalfOpen then 1 else 0)
      && m.total == m.successful + m.failed
  }

  lemma {:induction false} FlowConservation(cfg: Config, log: seq<Event>, n: nat)
    requires n <= |log|
    ensures FlowBalanced(StateAt(cfg, log, n))
  {
    if n == 0 {
    } else {
      FlowConservation(cfg, log, n - 1);
      FlowStep(cfg, StateAt(cfg, log, n - 1), log[n - 1]);
    }
  }

  lemma FlowStep(cfg: Config, b: Breaker, e: Event)
    requires FlowBalanced(b)
    ensures FlowBalanced(Step(cfg, b, e))
  {
  }

  lemma StepOnMetrics(cfg: Config, b: Breaker, e: Event)
    ensures var c := Step(cfg, b, e).metrics;
      && c.successful == (if e.Reset? then 0 else b.metrics.successful + (if EndsWith(e, Success) then 1 else 0))
      && c.failed == (if e.Reset? then 0 else b.metrics.failed + (if EndsWith(e, Failure) then 1 else 0))
      && c.rejected == (if e.Reset? then 0
                        else b.metrics.rejected + (if e.Begin? && !Admits(cfg, b, e.at) then 1 else 0))
  {
  }

  /** The request metrics count the log since the last reset. */
  lemma MetricsCountTheLog(cfg: Config, log: seq<Event>, n: nat)
    requires n <= |log|
    ensures var m := StateAt(cfg, log, n).metrics;
      && m.successful == |EndsSinceReset(log, n, Success)|
      && m.failed == |EndsSinceReset(log, n, Failure)|
      && m.rejected == |RejectedSinceReset(cfg, log, n)|
  {
    OutcomesCountTheLog(cfg, log, n);
    RejectionsCountTheLog(cfg, log, n);
  }

  lemma {:induction false} OutcomesCountTheLog(cfg: Config, log: seq<Event>, n: nat)
    requires n <= |log|
    ensures StateAt(cfg, log, n).metrics.successful == |EndsSinceReset(log, n, Success)|
    ensures StateAt(cfg, log, n).metrics.failed == |EndsSinceReset(log, n, Failure)|
  {
    if n == 0 {
    } else {
      OutcomesCountTheLog(cfg, log, n - 1);
      EndsSinceResetStep(log, n, Success);
      EndsSinceResetStep(log, n, Failure);
      StepOnMetrics(cfg, StateAt(cfg, log, n - 1), log[n - 1]);
    }
  }

  lemma {:induction false} RejectionsCountTheLog(cfg: Config, log: seq<Event>, n: nat)
    requires n <= |log|
    ensures StateAt(cfg, log, n).metrics.rejected == |RejectedSinceReset(cfg, log, n)|
  {
    if n == 0 {
    } else {
      RejectionsCountTheLog(cfg, log, n - 1);
      RejectedSinceResetStep(cfg, log, n);
      StepOnMetrics(cfg, StateAt(cfg, log, n - 1), log[n - 1]);
    }
  }

  lemma RejectedSinceResetStep(cfg: Config, log: seq<Event>, n: nat)
    requires 0 < n <= |log|
    ensures n - 1 !in RejectedSinceReset(cfg, log, n - 1)
    ensures RejectedSinceReset(cfg, log, n) ==
      if log[n - 1].Reset? then {}
      else if log[n - 1].Begin? && !Admitted(cfg, log, n - 1) then RejectedSinceReset(cfg, log, n - 1) + {n - 1}
      else RejectedSinceReset(cfg, log, n - 1)
  {
  }

  lemma EndsSinceResetStep(log: seq<Event>, n: nat, o: Outcome)
    requires 0 < n <= |log|
    ensures n - 1 !in EndsSinceReset(log, n - 1, o)
    ensures EndsSinceReset(log, n, o) ==
      if log[n - 1].Reset? then {}
      else if EndsWith(log[n - 1], o) then EndsSinceReset(log, n - 1, o) + {n - 1}
      else EndsSinceReset(log, n - 1, o)
  {
  }

  lemma {:induction false} HalfOpenAccounting(cfg: Config, log: seq<Event>, n: nat)
    requires Legal(cfg, log) && n <= |log| && StateAt(cfg, log, n).state == HalfOpen
    ensures StateAt(cfg, log, n).halfOpenCalls == |Probes(cfg, log, n)| - |Stragglers(cfg, log, n)|
    ensures StateAt(cfg, log, n).halfOpenCalls <= Max(0, cfg.halfOpenMaxCalls)
  {
    if Episode(cfg, log, n) == n {
      HalfOpenEntry(cfg, log, n);
    } else {
      HalfOpenAccounting(cfg, log, n - 1);
      StayHalfOpen(cfg, StateAt(cfg, log, n - 1), log[n - 1]);
      match log[n - 1]
      case Begin(_) => HalfOpenBegin(cfg, log, n);
      case End(_, _, _) => HalfOpenEnd(cfg, log, n);
    }
  }

  lemma StayHalfOpen(cfg: Config, b: Breaker, e: Event)
    requires b.state == HalfOpen && Step(cfg, b, e).state == HalfOpen
    ensures !e.Reset?
    ensures e.Begin? ==> Step(cfg, b, e).halfOpenCalls == b.halfOpenCalls + (if Admits(cfg, b, e.at) then 1 else 0)
    ensures e.Begin? ==> Admits(cfg, b, e.at) == (b.halfOpenCalls < cfg.halfOpenMaxCalls)
    ensures e.End? ==> Step(cfg, b, e).halfOpenCalls == b.halfOpenCalls - 1
  {
  }

  /** A call completes strictly after it begins. */
  lemma EndsAreLater(cfg: Config, log: seq<Event>, k: nat, n: nat)
    requires Legal(cfg, log) && n <= |log| && n <= k + 1
    ensures !Ended(log, k, n)
  {
  }

  lemma HalfOpenEntry(cfg: Config, log: seq<Event>, n: nat)
    requires Legal(cfg, log)
    requires n <= |log| && StateAt(cfg, log, n).state == HalfOpen && Episode(cfg, log, n) == n
    ensures n > 0
    ensures Stragglers(cfg, log, n) == {}
    ensures StateAt(cfg, log, n).halfOpenCalls == |Probes(cfg, log, n)|
    ensures StateAt(cfg, log, n).halfOpenCalls <= Max(0, cfg.halfOpenMaxCalls)
  {
    StepOnCounters(cfg, StateAt(cfg, log, n - 1), log[n - 1]);
    EndsAreLater(cfg, log, n - 1, n);
    assert Probes(cfg, log, n) == if Admitted(cfg, log, n - 1) then {n - 1} else {};
  }

  lemma HalfOpenBegin(cfg: Config, log: seq<Event>, n: nat)
    requires 0 < n <= |log| && Episode(cfg, log, n) < n && log[n - 1].Begin?
    requires Legal(cfg, log)
    ensures Stragglers(cfg, log, n) == Stragglers(cfg, log, n - 1)
    ensures |Probes(cfg, log, n)| == |Probes(cfg, log, n - 1)| + (if Admitted(cfg, log, n - 1) then 1 else 0)
  {
    forall k: nat ensures Ended(log, k, n) == Ended(log, k, n - 1) {
      EndedStep(log, k, n);
    }
    EndsAreLater(cfg, log, n - 1, n);
    assert Probes(cfg, log, n) == Probes(cfg, log, n - 1) + (if Admitted(cfg, log, n - 1) then {n - 1} else {});
  }

  lemma EndedStep(log: seq<Event>, k: nat, n: nat)
    requires 0 < n <= |log|
    ensures Ended(log, k, n) == (Ended(log, k, n - 1) || EndsCall(log[n - 1], k))
  {
  }

  lemma HalfOpenEnd(cfg: Config, log: seq<Event>, n: nat)
    requires 0 < n <= |log| && Episode(cfg, log, n) < n && log[n - 1].End?
    requires Legal(cfg, log)
    ensures |Probes(cfg, log, n)| - |Stragglers(cfg, log, n)|
         == |Probes(cfg, log, n - 1)| - |Stragglers(cfg, log, n - 1)| - 1
  {
    var c := log[n - 1].call;
    EndProbes(cfg, log, n, c);
    EndStragglers(cfg, log, n);
    if c + 1 < Episode(cfg, log, n) {
      assert |Stragglers(cfg, log, n)| == |Stragglers(cfg, log, n - 1)| + 1;
    } else {
      assert |Probes(cfg, log, n)| == |Probes(cfg, log, n - 1)| - 1;
    }
  }

  lemma EndStragglers(cfg: Config, log: seq<Event>, n: nat)
    requires 0 < n <= |log| && Episode(cfg, log, n) < n && log[n - 1].End?
    ensures Stragglers(cfg, log, n) ==
      if log[n - 1].call + 1 < Episode(cfg, log, n) then Stragglers(cfg, log, n - 1) + {n - 1}
      else Stragglers(cfg, log, n - 1)
    ensures n - 1 !in Stragglers(cfg, log, n - 1)
  {
  }

  lemma EndProbes(cfg: Config, log: seq<Event>, n: nat, c: nat)
    requires 0 < n <= |log| && Episode(cfg, log, n) < n && EndsCall(log[n - 1], c)
    requires Legal(cfg, log)
    ensures Probes(cfg, log, n) == Probes(cfg, log, n - 1) - {c}
    ensures c in Probes(cfg, log, n - 1) <==> Episode(cfg, log, n) <= c + 1
  {
    forall k: nat ensures Ended(log, k, n) == (Ended(log, k, n - 1) || k == c) {
      EndedStep(log, k, n);
    }
    assert Episode(cfg, log, n) == Episode(cfg, log, n - 1);
  }

  /** Concurrent probes never exceed the cap by more than the completed stragglers. */
  lemma ProbesBounded(cfg: Config, log: seq<Event>, n: nat)
    requires Legal(cfg, log) && n <= |log| && StateAt(cfg, log, n).state == HalfOpen
    ensures |Probes(cfg, log, n)| <= Max(0, cfg.halfOpenMaxCalls) + |Stragglers(cfg, log, n)|
  {
    HalfOpenAccounting(cfg, log, n);
  }

  lemma {:induction false} OpenHasRecentFailure(cfg: Config, log: seq<Event>, n: nat)
    requires Legal(cfg, log) && n <= |log| && StateAt(cfg, log, n).state == Open
    ensures Episode(cfg, log, n) > 0
    ensures var last := StateAt(cfg, log, n).lastFailure;
      last.Some? && log[Episode(cfg, log, n) - 1].at <= last.value <= log[n - 1].at
  {
    if Episode(cfg, log, n) < n {
      OpenHasRecentFailure(cfg, log, n - 1);
    }
  }

  /** Every stay in OPEN lasts at least `timeout`, unless a reset ends it. */
  lemma OpenLastsTimeout(cfg: Config, log: seq<Event>, n: nat)
    requires Legal(cfg, log) && n < |log| && StateAt(cfg, log, n).state == Open && !log[n].Reset?
    ensures Episode(cfg, log, n) > 0
    ensures StateAt(cfg, log, n + 1).state != Open ==>
              StateAt(cfg, log, n + 1).state == HalfOpen
              && log[n].at - log[Episode(cfg, log, n) - 1].at >= cfg.timeout
  {
    OpenHasRecentFailure(cfg, log, n);
  }

  lemma LatestFailureStep(log: seq<Event>, n: nat, e: nat)
    requires n < |log|
    ensures LatestFailure(log, n + 1, e) <==>
      if log[n].Reset? then false
      else if EndsWith(log[n], Failure) then e == n else LatestFailure(log, n, e)
  {
  }

  lemma FailureTimeStep(cfg: Config, b: Breaker, e: Event)
    ensures Step(cfg, b, e).lastFailure ==
      if e.Reset? then None else if EndsWith(e, Failure) then Some(e.at) else b.lastFailure
  {
  }

  /**
    The recorded failure time is the clock of the latest failure since the last
    reset, in whatever state that failure arrived; without one it is unset.
  */
  lemma {:induction false} FailureTimeIsLatest(cfg: Config, log: seq<Event>, n: nat)
    requires n <= |log|
    ensures StateAt(cfg, log, n).lastFailure.Some? <==> exists e: nat :: LatestFailure(log, n, e)
    ensures forall e: nat :: LatestFailure(log, n, e) ==> StateAt(cfg, log, n).lastFailure == Some(log[e].at)
  {
    if n == 0 {
    } else {
      FailureTimeIsLatest(cfg, log, n - 1);
      FailureTimeStep(cfg, StateAt(cfg, log, n - 1), log[n - 1]);
      forall e: nat
        ensures LatestFailure(log, n, e) <==>
          if log[n - 1].Reset? then false
          else if EndsWith(log[n - 1], Failure) then e == n - 1 else LatestFailure(log, n - 1, e)
      {
        LatestFailureStep(log, n - 1, e);
      }
      if EndsWith(log[n - 1], Failure) {
        assert LatestFailure(log, n, n - 1);
      } else {
        var m: nat := n - 1;
        if e: nat :| LatestFailure(log, m, e) {
          assert LatestFailure(log, n, e) <==> !log[m].Reset?;
        }
      }
    }
  }

  /** While OPEN there is a latest failure, and it is no older than the event that opened the circuit. */
  lemma OpenHasLatestFailure(cfg: Config, log: seq<Event>, n: nat) returns (e: nat)
    requires Legal(cfg, log) && n <= |log| && StateAt(cfg, log, n).state == Open
    ensures LatestFailure(log, n, e) && Episode(cfg, log, n) <= e + 1
    ensures StateAt(cfg, log, n).lastFailure == Some(log[e].at)
  {
    OpenHasRecentFailure(cfg, log, n);
    FailureTimeIsLatest(cfg, log, n);
    e :| LatestFailure(log, n, e);
    OpeningIsFailure(cfg, log, n);
  }

  lemma {:induction false} OpeningIsFailure(cfg: Config, log: seq<Event>, n: nat)
    requires n <= |log| && StateAt(cfg, log, n).state == Open
    ensures var first := Episode(cfg, log, n);
      first > 0 && EndsWith(log[first - 1], Failure) && LastReset(log, n) < first
  {
    StepOnOpening(cfg, StateAt(cfg, log, n - 1), log[n - 1]);
    if Episode(cfg, log, n) < n {
      OpeningIsFailure(cfg, log, n - 1);
    }
  }

  lemma StepOnOpening(cfg: Config, b: Breaker, e: Event)
    requires Step(cfg, b, e).state == Open
    ensures !e.Reset? && (b.state != Open ==> EndsWith(e, Failure))
  {
  }

  /**
    OPEN ends, unless by a reset, exactly with a call that comes `timeout` after
    the latest failure, and then in HALF_OPEN; failures that arrive while OPEN
    start the waiting again.
  */
  lemma OpenEndsExactly(cfg: Config, log: seq<Event>, n: nat, e: nat)
    requires Legal(cfg, log) && n < |log| && StateAt(cfg, log, n).state == Open && !log[n].Reset?
    requires LatestFailure(log, n, e)
    ensures StateAt(cfg, log, n + 1).state ==
      if log[n].Begin? && log[n].at - log[e].at >= cfg.timeout then HalfOpen else Open
  {
    FailureTimeIsLatest(cfg, log, n);
  }

  /** OPEN is never stuck: there is a latest failure to wait from, and a call `timeout` after it ends the stay. */
  lemma OpenIsNeverStuck(cfg: Config, log: seq<Event>, n: nat) returns (e: nat)
    requires Legal(cfg, log) && n < |log| && StateAt(cfg, log, n).state == Open && log[n].Begin?
    ensures LatestFailure(log, n, e)
    ensures StateAt(cfg, log, n + 1).state == HalfOpen <==> log[n].at >= log[e].at + cfg.timeout
  {
    e := OpenHasLatestFailure(cfg, log, n);
    OpenEndsExactly(cfg, log, n, e);
  }

  /**
    Which calls proceed, said of the log: all while CLOSED; while HALF_OPEN those
    that find the in-flight probes, less the stragglers, below the cap; while OPEN
    those that come `timeout` after the latest failure, if the cap lets any.
  */
  lemma AdmittedExactly(cfg: Config, log: seq<Event>, n: nat)
    requires Legal(cfg, log) && n < |log| && log[n].Begin?
    ensures Admitted(cfg, log, n) <==>
      match StateAt(cfg, log, n).state
      case Closed => true
      case HalfOpen => |Probes(cfg, log, n)| - |Stragglers(cfg, log, n)| < cfg.halfOpenMaxCalls
      case Open =>
        cfg.halfOpenMaxCalls > 0 && exists e: nat :: LatestFailure(log, n, e) && log[n].at - log[e].at >= cfg.timeout
  {
    var b := StateAt(cfg, log, n);
    match b.state
    case Closed =>
    case HalfOpen => HalfOpenAccounting(cfg, log, n);
    case Open =>
      var e := OpenHasLatestFailure(cfg, log, n);
      FailureTimeIsLatest(cfg, log, n);
  }

  /** The metric of one of the four transitions. */
  function MoveCounter(m: Metrics, from: CircuitState, to: CircuitState): nat
    requires IsMove(from, to)
  {
    match from
    case Closed => m.closedToOpen
    case Open => m.openToHalfOpen
    case HalfOpen => if to == Closed then m.halfOpenToClosed else m.halfOpenToOpen
  }

  predicate IsMove(from: CircuitState, to: CircuitState) {
    (from == Closed && to == Open) || (from == Open && to == HalfOpen) || (from == HalfOpen && to != HalfOpen)
  }

  lemma StepOnMoves(cfg: Config, b: Breaker, e: Event, from: CircuitState, to: CircuitState)
    requires IsMove(from, to)
    ensures MoveCounter(Step(cfg, b, e).metrics, from, to) ==
      if e.Reset? then 0
      else MoveCounter(b.metrics, from, to) + (if b.state == from && Step(cfg, b, e).state == to then 1 else 0)
  {
  }

  /** A closed circuit remembers no success and holds no slot. */
  lemma {:induction false} ClosedIsClean(cfg: Config, log: seq<Event>, n: nat)
    requires n <= |log| && StateAt(cfg, log, n).state == Closed
    ensures StateAt(cfg, log, n).successes == 0 && StateAt(cfg, log, n).halfOpenCalls == 0
  {
    if n == 0 {
    } else if StateAt(cfg, log, n - 1).state == Closed {
      ClosedIsClean(cfg, log, n - 1);
    }
  }

  lemma MarkedStep(flags: seq<bool>, m: nat, n: nat)
    requires m <= n < |flags|
    ensures |Marked(flags, m, n + 1)| == |Marked(flags, m, n)| + (if flags[n] then 1 else 0)
  {
    assert n !in Marked(flags, m, n);
    assert Marked(flags, m, n + 1) == Marked(flags, m, n) + (if flags[n] then {n} else {});
  }

  lemma MovesNext(cfg: Config, log: seq<Event>, n: nat, from: CircuitState, to: CircuitState)
    requires n < |log| && IsMove(from, to)
    requires MoveCounter(StateAt(cfg, log, n).metrics, from, to) == |MovesSinceReset(cfg, log, n, from, to)|
    ensures MoveCounter(Step(cfg, StateAt(cfg, log, n), log[n]).metrics, from, to) ==
            |MovesSinceReset(cfg, log, n + 1, from, to)|
  {
    var flags := MoveFlags(cfg, log, from, to);
    StepOnMoves(cfg, StateAt(cfg, log, n), log[n], from, to);
    if log[n].Reset? {
      assert Marked(flags, n + 1, n + 1) == {};
    } else {
      MarkedStep(flags, LastReset(log, n), n);
    }
  }

  lemma {:induction false} MovesAreCounted(cfg: Config, log: seq<Event>, n: nat, from: CircuitState, to: CircuitState)
    requires n <= |log| && IsMove(from, to)
    ensures MoveCounter(StateAt(cfg, log, n).metrics, from, to) == |MovesSinceReset(cfg, log, n, from, to)|
  {
    if n == 0 {
    } else {
      MovesAreCounted(cfg, log, n - 1, from, to);
      MovesNext(cfg, log, n - 1, from, to);
    }
  }

  /** Each transition metric is the number of such transitions since the last reset. */
  lemma TransitionsCountTheLog(cfg: Config, log: seq<Event>, n: nat)
    requires n <= |log|
    ensures var m := StateAt(cfg, log, n).metrics;
      && m.closedToOpen == |MovesSinceReset(cfg, log, n, Closed, Open)|
      && m.openToHalfOpen == |MovesSinceReset(cfg, log, n, Open, HalfOpen)|
      && m.halfOpenToClosed == |MovesSinceReset(cfg, log, n, HalfOpen, Closed)|
      && m.halfOpenToOpen == |MovesSinceReset(cfg, log, n, HalfOpen, Open)|
  {
    MovesAreCounted(cfg, log, n, Closed, Open);
    MovesAreCounted(cfg, log, n, Open, HalfOpen);
    MovesAreCounted(cfg, log, n, HalfOpen, Closed);
    MovesAreCounted(cfg, log, n, HalfOpen, Open);
  }

  function Waited(k: nat, t: real): real {
    if k == 0 then 0.0 else Waited(k - 1, t) + t
  }

  lemma {:induction false} WaitedIsProduct(k: nat, t: real)
    ensures Waited(k, t) == k as real * t
  {
    if k == 0 {
    } else {
      WaitedIsProduct(k - 1, t);
    }
  }

  /** Going half-open so often has taken at least `timeout` each time since `origin`. */
  ghost predicate PaidFor(cfg: Config, b: Breaker, origin: real, now: real) {
    var waited := Waited(b.metrics.openToHalfOpen, cfg.timeout);
    && origin <= now
    && waited <= now - origin
    && (b.state == Open && b.lastFailure.Some? ==> waited <= b.lastFailure.value - origin)
  }

  /** The circuit has gone half-open at most once per `timeout` since the clock `Origin`. */
  lemma {:induction false} ProbeRate(cfg: Config, log: seq<Event>, n: nat)
    requires Legal(cfg, log) && 0 < n <= |log|
    ensures PaidFor(cfg, StateAt(cfg, log, n), Origin(log, n), log[n - 1].at)
  {
    if n == 1 {
      assert StateAt(cfg, log, 0) == FRESH;
      PaidForStep(cfg, FRESH, log[0], log[0].at, log[0].at);
    } else {
      ProbeRate(cfg, log, n - 1);
      PaidForStep(cfg, StateAt(cfg, log, n - 1), log[n - 1], Origin(log, n - 1), log[n - 2].at);
    }
  }

  lemma PaidForStep(cfg: Config, b: Breaker, e: Event, origin: real, before: real)
    requires PaidFor(cfg, b, origin, before) && before <= e.at
    ensures PaidFor(cfg, Step(cfg, b, e), if e.Reset? then e.at else origin, e.at)
  {
  }

  lemma PaidForAsProduct(cfg: Config, b: Breaker, origin: real, now: real)
    requires PaidFor(cfg, b, origin, now)
    ensures b.metrics.openToHalfOpen as real * cfg.timeout <= now - origin
  {
    WaitedIsProduct(b.metrics.openToHalfOpen, cfg.timeout);
  }

  // ---------- logs that grow ----------

  lemma {:induction false} StateFrame(cfg: Config, log: seq<Event>, ext: seq<Event>, n: nat)
    requires n <= |log|
    ensures StateAt(cfg, log + ext, n) == StateAt(cfg, log, n)
    ensures Episode(cfg, log + ext, n) == Episode(cfg, log, n)
  {
    if n == 0 {
    } else {
      StateFrame(cfg, log, ext, n - 1);
    }
  }

  lemma EndedFrame(log: seq<Event>, ext: seq<Event>, k: nat, n: nat)
    requires n <= |log|
    ensures Ended(log + ext, k, n) == Ended(log, k, n)
  {
    assert forall e :: 0 <= e < n ==> (log + ext)[e] == log[e];
  }

  ghost predicate InFlight(cfg: Config, log: seq<Event>, k: nat) {
    k < |log| && Admitted(cfg, log, k) && !Ended(log, k, |log|)
  }

  lemma LegalGrows(cfg: Config, log: seq<Event>, e: Event)
    requires Legal(cfg, log)
    requires log != [] ==> log[|log| - 1].at <= e.at
    requires e.End? ==> InFlight(cfg, log, e.call)
    ensures Legal(cfg, log + [e])
    ensures StateAt(cfg, log + [e], |log|) == StateAt(cfg, log, |log|)
  {
    var all := log + [e];
    StateFrame(cfg, log, [e], |log|);
    forall x | 0 <= x < |all| && all[x].End?
      ensures all[x].call < x && Admitted(cfg, all, all[x].call) && !Ended(all, all[x].call, x)
    {
      assert x < |log| ==> all[x] == log[x];
      StateFrame(cfg, log, [e], all[x].call);
      EndedFrame(log, [e], all[x].call, x);
    }
  }

  ghost predicate BeginOnly(cfg: Config, log: seq<Event>, ext: seq<Event>) {
    Legal(cfg, log + ext) && forall i :: 0 <= i < |ext| ==> ext[i].Begin?
  }

  /** The log goes on, in any legal way, within the same stay in HALF_OPEN. */
  ghost predicate StaysHalfOpen(cfg: Config, log: seq<Event>, ext: seq<Event>) {
    && Legal(cfg, log + ext)
    && StateAt(cfg, log + ext, |log + ext|).state == HalfOpen
    && Episode(cfg, log + ext, |log + ext|) == Episode(cfg, log, |log|)
  }

  lemma {:induction false} BeginsKeepStragglers(cfg: Config, log: seq<Event>, m: nat, n: nat)
    requires m <= n <= |log| && StateAt(cfg, log, m).state == HalfOpen
    requires forall i :: m <= i < n ==> log[i].Begin?
    ensures StateAt(cfg, log, n).state == HalfOpen && Episode(cfg, log, n) == Episode(cfg, log, m)
    ensures Stragglers(cfg, log, n) == Stragglers(cfg, log, m)
    decreases n
  {
    if m == n {
    } else {
      BeginsKeepStragglers(cfg, log, m, n - 1);
      assert StateAt(cfg, log, n).state == HalfOpen;
      assert Stragglers(cfg, log, n) == Stragglers(cfg, log, n - 1);
    }
  }

  lemma ExtensionKeepsStragglers(cfg: Config, log: seq<Event>, ext: seq<Event>)
    requires BeginOnly(cfg, log, ext) && StateAt(cfg, log, |log|).state == HalfOpen
    ensures StaysHalfOpen(cfg, log, ext)
    ensures Stragglers(cfg, log + ext, |log + ext|) == Stragglers(cfg, log, |log|)
  {
    var all := log + ext;
    StateFrame(cfg, log, ext, |log|);
    assert forall i :: 0 <= i < |log| ==> all[i] == log[i];
    assert Stragglers(cfg, all, |log|) == Stragglers(cfg, log, |log|);
    forall i | |log| <= i < |all| ensures all[i].Begin? {
      assert all[i] == ext[i - |log|];
    }
    BeginsKeepStragglers(cfg, all, |log|, |all|);
  }

  lemma RoomAdmits(cfg: Config, b: Breaker, e: Event)
    requires b.state == HalfOpen && b.halfOpenCalls < cfg.halfOpenMaxCalls && e.Begin?
    ensures Step(cfg, b, e) == b.(halfOpenCalls := b.halfOpenCalls + 1)
  {
  }

  function Begins(at: real, m: nat): seq<Event> {
    seq(m, _ => Begin(at))
  }

  lemma {:induction false} BeginsAreLegal(cfg: Config, log: seq<Event>, at: real, m: nat)
    requires Legal(cfg, log) && log != [] && log[|log| - 1].at == at
    ensures Legal(cfg, log + Begins(at, m))
  {
    if m == 0 {
      assert log + Begins(at, 0) == log;
    } else {
      BeginsAreLegal(cfg, log, at, m - 1);
      assert log + Begins(at, m) == log + Begins(at, m - 1) + [Begin(at)];
      LegalGrows(cfg, log + Begins(at, m - 1), Begin(at));
    }
  }

  lemma OneMoreBegin(cfg: Config, log: seq<Event>, at: real)
    requires var b := StateAt(cfg, log, |log|); b.state == HalfOpen && b.halfOpenCalls < cfg.halfOpenMaxCalls
    ensures var b, all := StateAt(cfg, log, |log|), log + [Begin(at)];
      StateAt(cfg, all, |all|) == b.(halfOpenCalls := b.halfOpenCalls + 1)
  {
    StateFrame(cfg, log, [Begin(at)], |log|);
    RoomAdmits(cfg, StateAt(cfg, log, |log|), Begin(at));
  }

  /** Room below the cap can always be filled by further calls alone. */
  lemma {:induction false} BeginsFillTheCap(cfg: Config, log: seq<Event>, at: real, m: nat)
    requires StateAt(cfg, log, |log|).state == HalfOpen
    requires StateAt(cfg, log, |log|).halfOpenCalls + m <= cfg.halfOpenMaxCalls
    ensures var all := log + Begins(at, m);
      && StateAt(cfg, all, |all|).state == HalfOpen
      && StateAt(cfg, all, |all|).halfOpenCalls == StateAt(cfg, log, |log|).halfOpenCalls + m
  {
    if m == 0 {
      assert log + Begins(at, 0) == log;
    } else {
      BeginsFillTheCap(cfg, log, at, m - 1);
      OneMoreBegin(cfg, log + Begins(at, m - 1), at);
      assert log + Begins(at, m) == log + Begins(at, m - 1) + [Begin(at)];
    }
  }

  /**
    `half_open_max_calls` caps the concurrent probes of a half-open circuit exactly
    when no call admitted before the episode has completed inside it: otherwise
    further calls alone take the probes above the cap.
  */
  lemma CapHoldsExactlyWithoutStragglers(cfg: Config, log: seq<Event>)
    requires Legal(cfg, log) && StateAt(cfg, log, |log|).state == HalfOpen
    requires cfg.halfOpenMaxCalls >= 0
    ensures (forall ext :: BeginOnly(cfg, log, ext) ==> |Probes(cfg, log + ext, |log + ext|)| <= cfg.halfOpenMaxCalls)
            <==> Stragglers(cfg, log, |log|) == {}
  {
    if Stragglers(cfg, log, |log|) == {} {
      forall ext | BeginOnly(cfg, log, ext)
        ensures |Probes(cfg, log + ext, |log + ext|)| <= cfg.halfOpenMaxCalls
      {
        ExtensionKeepsStragglers(cfg, log, ext);
        ProbesBounded(cfg, log + ext, |log + ext|);
      }
    } else {
      HalfOpenAccounting(cfg, log, |log|);
      var at, room := log[|log| - 1].at, cfg.halfOpenMaxCalls - StateAt(cfg, log, |log|).halfOpenCalls;
      BeginsAreLegal(cfg, log, at, room);
      BeginsFillTheCap(cfg, log, at, room);
      var ext := Begins(at, room);
      assert BeginOnly(cfg, log, ext);
      ExtensionKeepsStragglers(cfg, log, ext);
      HalfOpenAccounting(cfg, log + ext, |log + ext|);
    }
  }

  /** A call admitted before the stay in HALF_OPEN that has not completed yet. */
  ghost predicate EarlierInFlight(cfg: Config, log: seq<Event>, k: nat) {
    InFlight(cfg, log, k) && k + 1 < Episode(cfg, log, |log|)
  }

  lemma EndedGrows(log: seq<Event>, k: nat, m: nat, n: nat)
    requires m <= n <= |log| && Ended(log, k, m)
    ensures Ended(log, k, n)
  {
  }

  /** A straggler of the longer log is one already, or completes a call that is in flight. */
  lemma StragglersComeFromFlight(cfg: Config, log: seq<Event>, ext: seq<Event>, e: nat)
    requires StaysHalfOpen(cfg, log, ext) && e in Stragglers(cfg, log + ext, |log + ext|)
    ensures (log + ext)[e].End?
    ensures e in Stragglers(cfg, log, |log|) || EarlierInFlight(cfg, log, (log + ext)[e].call)
  {
    var all := log + ext;
    var k := all[e].call;
    if e < |log| {
      assert all[e] == log[e];
    } else {
      assert all[k] == log[k];
      StateFrame(cfg, log, ext, k);
      EndedFrame(log, ext, k, |log|);
      if Ended(all, k, |log|) {
        EndedGrows(all, k, |log|, e);
      }
    }
  }

  /** A call in flight may complete with an error the breaker does not expect, which leaves it half-open. */
  lemma UnexpectedEndStays(cfg: Config, log: seq<Event>, k: nat)
    requires Legal(cfg, log) && StateAt(cfg, log, |log|).state == HalfOpen && EarlierInFlight(cfg, log, k)
    ensures var ext := [End(k, Unexpected, log[|log| - 1].at)];
      StaysHalfOpen(cfg, log, ext) && |log| in Stragglers(cfg, log + ext, |log + ext|)
  {
    var e := End(k, Unexpected, log[|log| - 1].at);
    LegalGrows(cfg, log, e);
    StateFrame(cfg, log, [e], |log|);
    assert Step(cfg, StateAt(cfg, log, |log|), e).state == HalfOpen;
    assert (log + [e])[|log|] == e;
  }

  lemma StaysComposes(cfg: Config, log: seq<Event>, ext: seq<Event>, more: seq<Event>)
    requires StaysHalfOpen(cfg, log, ext) && StaysHalfOpen(cfg, log + ext, more)
    ensures log + (ext + more) == log + ext + more && StaysHalfOpen(cfg, log, ext + more)
  {
    assert log + (ext + more) == log + ext + more;
  }

  lemma EarlierCallBreaksTheCap(cfg: Config, log: seq<Event>, k: nat) returns (ext: seq<Event>)
    requires Legal(cfg, log) && StateAt(cfg, log, |log|).state == HalfOpen && cfg.halfOpenMaxCalls >= 0
    requires EarlierInFlight(cfg, log, k)
    ensures StaysHalfOpen(cfg, log, ext) && |Probes(cfg, log + ext, |log + ext|)| > cfg.halfOpenMaxCalls
  {
    var end := [End(k, Unexpected, log[|log| - 1].at)];
    UnexpectedEndStays(cfg, log, k);
    CapHoldsExactlyWithoutStragglers(cfg, log + end);
    var more :| BeginOnly(cfg, log + end, more)
      && |Probes(cfg, log + end + more, |log + end + more|)| > cfg.halfOpenMaxCalls;
    ExtensionKeepsStragglers(cfg, log + end, more);
    ext := end + more;
    StaysComposes(cfg, log, end, more);
  }

  /**
    Over everything that may follow within the same stay in HALF_OPEN, the cap
    holds exactly when no call admitted before it has completed in it or can
    still do so.
  */
  lemma CapHoldsExactlyWhateverFollows(cfg: Config, log: seq<Event>)
    requires Legal(cfg, log) && StateAt(cfg, log, |log|).state == HalfOpen
    requires cfg.halfOpenMaxCalls >= 0
    ensures (forall ext :: StaysHalfOpen(cfg, log, ext) ==>
               |Probes(cfg, log + ext, |log + ext|)| <= cfg.halfOpenMaxCalls)
            <==> Stragglers(cfg, log, |log|) == {} && forall k: nat :: !EarlierInFlight(cfg, log, k)
  {
    if Stragglers(cfg, log, |log|) != {} {
      CapHoldsExactlyWithoutStragglers(cfg, log);
      var ext :| BeginOnly(cfg, log, ext) && |Probes(cfg, log + ext, |log + ext|)| > cfg.halfOpenMaxCalls;
      ExtensionKeepsStragglers(cfg, log, ext);
    } else if k: nat :| EarlierInFlight(cfg, log, k) {
      var ext := EarlierCallBreaksTheCap(cfg, log, k);
    } else {
      forall ext | StaysHalfOpen(cfg, log, ext)
        ensures |Probes(cfg, log + ext, |log + ext|)| <= cfg.halfOpenMaxCalls
      {
        NoStragglersFollow(cfg, log, ext);
        ProbesBounded(cfg, log + ext, |log + ext|);
      }
    }
  }

  lemma NoStragglersFollow(cfg: Config, log: seq<Event>, ext: seq<Event>)
    requires StaysHalfOpen(cfg, log, ext) && Stragglers(cfg, log, |log|) == {}
    requires forall k: nat :: !EarlierInFlight(cfg, log, k)
    ensures Stragglers(cfg, log + ext, |log + ext|) == {}
  {
    forall e | e in Stragglers(cfg, log + ext, |log + ext|) ensures false {
      StragglersComeFromFlight(cfg, log, ext, e);
    }
  }

  ghost predicate IsStragglerRun(cfg: Config, log: seq<Event>) {
    && cfg == Config(1, 2, 30.0, 1, false)
    && |log| == 6 && log[0] == log[1] == Begin(0.0) && log[3] == log[5] == Begin(30.0)
    && log[2] == End(0, Failure, 0.0) && log[4] == End(1, Success, 30.0)
  }

  lemma StragglerRunOpens(cfg: Config, log: seq<Event>)
    requires IsStragglerRun(cfg, log)
    ensures StateAt(cfg, log, 0) == FRESH && StateAt(cfg, log, 1) == FRESH && StateAt(cfg, log, 2) == FRESH
    ensures var s := StateAt(cfg, log, 3); s.state == Open && s.lastFailure == Some(0.0)
  {
    assert StateAt(cfg, log, 1) == Step(cfg, FRESH, log[0]);
    assert StateAt(cfg, log, 2) == Step(cfg, FRESH, log[1]);
    assert StateAt(cfg, log, 3) == Step(cfg, FRESH, log[2]);
  }

  lemma StragglerFreesASlot(cfg: Config, b: Breaker)
    requires cfg == Config(1, 2, 30.0, 1, false) && b.state == Open && b.lastFailure == Some(0.0)
    ensures var c := Step(cfg, b, Begin(30.0));
      && c.state == HalfOpen && c.halfOpenCalls == 1
      && (var d := Step(cfg, c, End(1, Success, 30.0));
          && d.state == HalfOpen && d.halfOpenCalls == 0
          && (var e := Step(cfg, d, Begin(30.0)); e.state == HalfOpen && e.halfOpenCalls == 1))
  {
  }

  lemma StragglerRun(cfg: Config, log: seq<Event>)
    requires IsStragglerRun(cfg, log)
    ensures Admitted(cfg, log, 0) && Admitted(cfg, log, 1)
    ensures StateAt(cfg, log, 3).state == Open
    ensures var s := StateAt(cfg, log, 4); s.state == HalfOpen && s.halfOpenCalls == 1
    ensures var s := StateAt(cfg, log, 5); s.state == HalfOpen && s.halfOpenCalls == 0
    ensures var s := StateAt(cfg, log, 6); s.state == HalfOpen && s.halfOpenCalls == 1
  {
    StragglerRunOpens(cfg, log);
    StragglerFreesASlot(cfg, StateAt(cfg, log, 3));
  }

  lemma StragglerRunIsLegal(cfg: Config, log: seq<Event>)
    requires IsStragglerRun(cfg, log)
    requires Admitted(cfg, log, 0) && Admitted(cfg, log, 1)
    ensures Legal(cfg, log)
  {
    assert !Ended(log, 0, 2);
    assert !Ended(log, 1, 4);
    forall e | 0 <= e < |log| && log[e].End? ensures e == 2 || e == 4 {
    }
  }

  /** A run that exceeds a cap of one: the second of two overlapping calls completes after the circuit half-opens. */
  lemma StragglerLetsTwoProbesPastACapOfOne()
    ensures var cfg := Config(1, 2, 30.0, 1, false);
      var log := [Begin(0.0), Begin(0.0), End(0, Failure, 0.0), Begin(30.0), End(1, Success, 30.0), Begin(30.0)];
      Legal(cfg, log) && StateAt(cfg, log, 6).state == HalfOpen
      && |Probes(cfg, log, 6)| == 2 > cfg.halfOpenMaxCalls
  {
    var cfg := Config(1, 2, 30.0, 1, false);
    var log := [Begin(0.0), Begin(0.0), End(0, Failure, 0.0), Begin(30.0), End(1, Success, 30.0), Begin(30.0)];
    TwoProbes(cfg, log);
  }

  lemma TwoProbes(cfg: Config, log: seq<Event>)
    requires IsStragglerRun(cfg, log)
    ensures Legal(cfg, log) && StateAt(cfg, log, 6).state == HalfOpen && |Probes(cfg, log, 6)| == 2
  {
    StragglerRun(cfg, log);
    StragglerRunIsLegal(cfg, log);
    HalfOpenAccounting(cfg, log, 6);
    assert Episode(cfg, log, 4) == 4;
    assert Episode(cfg, log, 5) == 4;
    assert Episode(cfg, log, 6) == 4;
    assert Stragglers(cfg, log, 6) == {4};
  }
}

/** The breaker object: its fields change step by step, and the ghost log says what they stand for. */
module VoiceSwitch {
  import opened Basics
  import opened BreakerLog
  import opened BreakerTheorems

  datatype Admission =
    | Proceed
    | RejectedWithFallback
    | RejectedOpen(retryAfter: real)

  class CircuitBreaker {
    const cfg: Config
    var state: CircuitState
    var failureCount: int
    var successCount: int
    var lastFailureTime: Option<real>
    var halfOpenCalls: int
    var metrics: Metrics
    ghost var log: seq<Event>

    function View(): Breaker
      reads this
    {
      Breaker(state, failureCount, successCount, lastFailureTime, halfOpenCalls, metrics)
    }

    ghost predicate Valid()
      reads this
    {
      Legal(cfg, log) && View() == StateAt(cfg, log, |log|)
    }

    /** The clock has not gone back since the last event. */
    ghost predicate Now(at: real)
      reads this
    {
      log != [] ==> log[|log| - 1].at <= at
    }

    constructor (cfg: Config)
      ensures Valid() && this.cfg == cfg && log == []
    {
      this.cfg := cfg;
      state, failureCount, successCount, lastFailureTime, halfOpenCalls := Closed, 0, 0, None, 0;
      metrics := ZERO;
      log := [];
    }

    method TransitionTo(newState: CircuitState)
      modifies this
      ensures View() == Transition(old(View()), newState) && log == old(log)
      ensures state == newState && lastFailureTime == old(lastFailureTime)
      ensures newState == Open || newState == old(state) ==>
        failureCount == old(failureCount) && successCount == old(successCount) && halfOpenCalls == old(halfOpenCalls)
    {
      var oldState := state;
      if oldState != newState {
        state := newState;
        metrics := CountTransition(metrics, oldState, newState);
        if newState == Closed {
          failureCount := 0;
          successCount := 0;
          halfOpenCalls := 0;
        } else if newState == HalfOpen {
          halfOpenCalls := 0;
          successCount := 0;
        }
      }
    }

    method RecordSuccess()
      modifies this
      ensures View() == OnSuccess(cfg, old(View())) && log == old(log)
    {
      metrics := metrics.(total := metrics.total + 1, successful := metrics.successful + 1);
      if state == HalfOpen {
        successCount := successCount + 1;
        if successCount >= cfg.successThreshold {
          TransitionTo(Closed);
        }
      } else if state == Closed {
        failureCount := 0;
      }
    }

    method RecordFailure(at: real)
      modifies this
      ensures View() == OnFailure(cfg, old(View()), at) && log == old(log)
    {
      metrics := metrics.(total := metrics.total + 1, failed := metrics.failed + 1);
      lastFailureTime := Some(at);
      if state == HalfOpen {
        TransitionTo(Open);
      } else if state == Closed {
        failureCount := failureCount + 1;
        if failureCount >= cfg.failureThreshold {
          TransitionTo(Open);
        }
      }
    }

    method CheckAndTransitionFromOpen(at: real)
      modifies this
      ensures View() == CheckOpen(cfg, old(View()), at) && log == old(log)
    {
      if state != Open {
        return;
      }
      if lastFailureTime.None? {
        return;
      }
      if at - lastFailureTime.value >= cfg.timeout {
        TransitionTo(HalfOpen);
      }
    }

    method Admit(at: real) returns (admission: Admission)
      requires state == Open ==> lastFailureTime.Some?
      modifies this
      ensures View() == AfterBegin(cfg, old(View()), at) && log == old(log)
      ensures admission.Proceed? <==> Admits(cfg, old(View()), at)
      ensures admission.RejectedWithFallback? ==> cfg.hasFallback && state == Open
      ensures admission.RejectedOpen? ==>
        if state == Open then lastFailureTime.Some? && HintFor(lastFailureTime.value, at, admission.retryAfter)
        else state == HalfOpen && admission.retryAfter == 0.0
    {
      CheckAndTransitionFromOpen(at);
      if state == Open {
        metrics := metrics.(rejected := metrics.rejected + 1);
        if cfg.hasFallback {
          return RejectedWithFallback;
        }
        var retryAfter := 0.0;
        if lastFailureTime.Some? && lastFailureTime.value != 0.0 {
          retryAfter := cfg.timeout - (at - lastFailureTime.value);
          if retryAfter < 0.0 {
            retryAfter := 0.0;
          }
        }
        return RejectedOpen(retryAfter);
      }
      if state == HalfOpen {
        if halfOpenCalls >= cfg.halfOpenMaxCalls {
          metrics := metrics.(rejected := metrics.rejected + 1);
          return RejectedOpen(0.0);
        }
        halfOpenCalls := halfOpenCalls + 1;
      }
      return Proceed;
    }

    /** The exact time left since that failure, except when it was at clock zero. */
    ghost predicate HintFor(failedAt: real, at: real, retryAfter: real) {
      !cfg.hasFallback
      && if failedAt == 0.0 then retryAfter == 0.0 else at + retryAfter == failedAt + cfg.timeout && retryAfter > 0.0
    }

    /** The time left since the latest failure of the log. */
    ghost predicate HintFromLog(seen: seq<Event>, at: real, retryAfter: real) {
      exists e: nat :: LatestFailure(seen, |seen|, e) && HintFor(seen[e].at, at, retryAfter)
    }

    /** `call`, up to the guarded function. */
    method BeginCall(at: real) returns (admission: Admission)
      requires Valid() && Now(at)
      modifies this
      ensures Valid() && log == old(log) + [Begin(at)]
      ensures admission.Proceed? <==> InFlight(cfg, log, |old(log)|)
      ensures admission.RejectedWithFallback? ==> cfg.hasFallback && state == Open
      ensures admission.RejectedOpen? ==> if state == Open then HintFromLog(old(log), at, admission.retryAfter)
                                          else state == HalfOpen && admission.retryAfter == 0.0
    {
      ghost var grown := log + [Begin(at)];
      LegalGrows(cfg, log, Begin(at));
      EndsAreLater(cfg, grown, |log|, |log| + 1);
      if state == Open {
        ghost var e := OpenHasLatestFailure(cfg, log, |log|);
      }
      admission := Admit(at);
      log := grown;
    }

    method Complete(outcome: Outcome, at: real)
      modifies this
      ensures View() == AfterEnd(cfg, old(View()), outcome, at) && log == old(log)
    {
      match outcome {
        case Success => RecordSuccess();
        case Failure => RecordFailure(at);
        case Unexpected =>
      }
      if state == HalfOpen {
        halfOpenCalls := halfOpenCalls - 1;
      }
    }

    /** `call`, from the completion of the guarded function on; the state may have changed since its begin. */
    method EndCall(call: nat, outcome: Outcome, at: real)
      requires Valid() && Now(at) && InFlight(cfg, log, call)
      modifies this
      ensures Valid() && log == old(log) + [End(call, outcome, at)]
    {
      LegalGrows(cfg, log, End(call, outcome, at));
      Complete(outcome, at);
      log := log + [End(call, outcome, at)];
    }

    method ClearState()
      modifies this
      ensures View() == FRESH && log == old(log)
    {
      state := Closed;
      failureCount := 0;
      successCount := 0;
      lastFailureTime := None;
      halfOpenCalls := 0;
      metrics := ZERO;
    }

    method ResetBreaker(at: real)
      requires Valid() && Now(at)
      modifies this
      ensures Valid() && log == old(log) + [Reset(at)]
    {
      LegalGrows(cfg, log, Reset(at));
      ClearState();
      log := log + [Reset(at)];
    }
  }
}
