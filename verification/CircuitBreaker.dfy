/** The circuit breaker called from one thread at a time, on a clock that never
    runs backwards. Time is in nanoseconds. */
module CircuitBreaker {
  import opened Clock

  datatype CircuitState = Closed | Open | HalfOpen

  datatype Option<+T> = None | Some(value: T)

  datatype Config = Config(failureThreshold: nat, successThreshold: nat, resetTimeoutMs: nat, halfOpenMaxRequests: nat)

  const DEFAULT_CONFIG := Config(5, 3, 30_000, 3)
  const AGGRESSIVE_CONFIG := Config(3, 2, 10_000, 1)
  const LENIENT_CONFIG := Config(10, 5, 60_000, 5)

  const NANOS_PER_MS: nat := 1_000_000

  datatype Rejection = CircuitOpen(untilHalfOpenMs: Option<nat>) | HalfOpenLimitReached(maxRequests: nat)

  datatype Verdict = Admitted | Rejected(reason: Rejection)

  /** The fields of a breaker as a value. */
  datatype Breaker = Breaker(
    state: CircuitState,
    failures: nat,
    successes: nat,
    halfOpenRequests: nat,
    lastFailureTime: nat,
    openedAt: Option<nat>)

  const FRESH := Breaker(Closed, 0, 0, 0, 0, None)

  function Timeout(config: Config): nat {
    config.resetTimeoutMs * NANOS_PER_MS
  }

  predicate TimeoutElapsed(config: Config, b: Breaker, now: nat) {
    b.openedAt.Some? && Elapsed(now, b.openedAt.value) >= Timeout(config)
  }

  function UntilHalfOpen(config: Config, b: Breaker, now: nat): Option<nat> {
    if b.openedAt.None? then None
    else
      var elapsed := Elapsed(now, b.openedAt.value);
      Some(if elapsed < Timeout(config) then (Timeout(config) - elapsed) / NANOS_PER_MS else 0)
  }

  // ---------------------------------------------------------------------
  // The operations as functions
  // ---------------------------------------------------------------------

  function Opened(b: Breaker, now: nat): Breaker {
    b.(state := Open, successes := 0, halfOpenRequests := 0, openedAt := Some(now))
  }

  function HalfOpened(b: Breaker): Breaker {
    b.(state := HalfOpen, successes := 0, halfOpenRequests := 0)
  }

  function ClosedAgain(b: Breaker): Breaker {
    b.(state := Closed, failures := 0, successes := 0, halfOpenRequests := 0, openedAt := None)
  }

  function Executed(config: Config, b: Breaker, now: nat): (Breaker, Verdict) {
    match b.state
    case Closed => (b, Admitted)
    case Open =>
      if TimeoutElapsed(config, b, now) then (HalfOpened(b).(halfOpenRequests := 1), Admitted)
      else (b, Rejected(CircuitOpen(UntilHalfOpen(config, b, now))))
    case HalfOpen =>
      if b.halfOpenRequests < config.halfOpenMaxRequests then
        (b.(halfOpenRequests := b.halfOpenRequests + 1), Admitted)
      else (b, Rejected(HalfOpenLimitReached(config.halfOpenMaxRequests)))
  }

  function Succeeded(config: Config, b: Breaker): Breaker {
    match b.state
    case Closed => b.(failures := 0)
    case HalfOpen =>
      var counted := b.(successes := b.successes + 1);
      if counted.successes >= config.successThreshold then ClosedAgain(counted) else counted
    case Open => b
  }

  function Failed(config: Config, b: Breaker, now: nat, wall: nat): Breaker {
    match b.state
    case Closed =>
      var counted := b.(failures := b.failures + 1, lastFailureTime := wall);
      if counted.failures >= config.failureThreshold then Opened(counted, now) else counted
    case HalfOpen => Opened(b.(lastFailureTime := wall), now)
    case Open => b.(lastFailureTime := wall)
  }

  class SharedBreaker {
    const config: Config
    var state: CircuitState
    var failures: nat
    var successes: nat
    var halfOpenRequests: nat
    var lastFailureTime: nat
    var openedAt: Option<nat>

    ghost function Value(): Breaker
      reads this
    {
      Breaker(state, failures, successes, halfOpenRequests, lastFailureTime, openedAt)
    }

    constructor (config: Config)
      ensures this.config == config && Value() == FRESH
    {
      this.config := config;
      state, failures, successes, halfOpenRequests, lastFailureTime, openedAt := Closed, 0, 0, 0, 0, None;
    }

    method CanExecute(now: nat) returns (verdict: Verdict)
      modifies this
      ensures (Value(), verdict) == Executed(config, old(Value()), now)
      ensures verdict.Admitted? <==>
                || old(state) == Closed
                || (old(state) == Open && old(openedAt).Some?
                    && Elapsed(now, old(openedAt).value) >= config.resetTimeoutMs * 1_000_000)
                || (old(state) == HalfOpen && old(halfOpenRequests) < config.halfOpenMaxRequests)
    {
      match state {
        case Closed =>
          verdict := Admitted;
        case Open =>
          if openedAt.Some? && Elapsed(now, openedAt.value) >= Timeout(config) {
            TransitionToHalfOpen();
            halfOpenRequests := halfOpenRequests + 1;
            verdict := Admitted;
          } else {
            var wait := None;
            if openedAt.Some? {
              var elapsed := Elapsed(now, openedAt.value);
              wait := Some(if elapsed < Timeout(config) then (Timeout(config) - elapsed) / NANOS_PER_MS else 0);
            }
            verdict := Rejected(CircuitOpen(wait));
          }
        case HalfOpen =>
          if halfOpenRequests < config.halfOpenMaxRequests {
            halfOpenRequests := halfOpenRequests + 1;
            verdict := Admitted;
          } else {
            verdict := Rejected(HalfOpenLimitReached(config.halfOpenMaxRequests));
          }
      }
    }

    method RecordSuccess()
      modifies this
      ensures Value() == Succeeded(config, old(Value()))
    {
      if state == Closed {
        failures := 0;
      } else if state == HalfOpen {
        successes := successes + 1;
        if successes >= config.successThreshold {
          TransitionToClosed();
        }
      }
    }

    method RecordFailure(now: nat, wall: nat)
      modifies this
      ensures Value() == Failed(config, old(Value()), now, wall)
    {
      if state == Closed {
        failures := failures + 1;
        lastFailureTime := wall;
        if failures >= config.failureThreshold {
          TransitionToOpen(now);
        }
      } else if state == HalfOpen {
        lastFailureTime := wall;
        TransitionToOpen(now);
      } else {
        lastFailureTime := wall;
      }
    }

    method Reset()
      modifies this
      ensures Value() == FRESH
    {
      state, failures, successes, halfOpenRequests, lastFailureTime, openedAt := Closed, 0, 0, 0, 0, None;
    }

    method TransitionToOpen(now: nat)
      modifies this
      ensures Value() == Opened(old(Value()), now)
    {
      state, successes, halfOpenRequests, openedAt := Open, 0, 0, Some(now);
    }

    method TransitionToHalfOpen()
      modifies this
      ensures Value() == HalfOpened(old(Value()))
    {
      state, successes, halfOpenRequests := HalfOpen, 0, 0;
    }

    method TransitionToClosed()
      modifies this
      ensures Value() == ClosedAgain(old(Value()))
    {
      state, failures, successes, halfOpenRequests, openedAt := Closed, 0, 0, 0, None;
    }
  }

  // ---------------------------------------------------------------------
  // Runs
  // ---------------------------------------------------------------------

  datatype Op = Execute(now: nat) | Success(now: nat) | Failure(now: nat, wall: nat) | Reset(now: nat)

  function Step(config: Config, b: Breaker, op: Op): Breaker {
    match op
    case Execute(now) => Executed(config, b, now).0
    case Success(_) => Succeeded(config, b)
    case Failure(now, wall) => Failed(config, b, now, wall)
    case Reset(_) => FRESH
  }

  /** The breaker after a run from `b`. */
  function After(config: Config, b: Breaker, ops: seq<Op>): Breaker {
    if ops == [] then b else Step(config, After(config, b, ops[..|ops| - 1]), ops[|ops| - 1])
  }

  predicate Admits(config: Config, b: Breaker, op: Op) {
    op.Execute? && Executed(config, b, op.now).1.Admitted?
  }

  ghost predicate ClockRuns(ops: seq<Op>) {
    forall i, j :: 0 <= i < j < |ops| ==> ops[i].now <= ops[j].now
  }

  function AtLeastOne(n: nat): (m: nat) {
    if n == 0 then 1 else n
  }

  // ---------------------------------------------------------------------
  // The counters are the history
  // ---------------------------------------------------------------------

  /** The failures at the end of the run, in Closed, with no success between. */
  ghost function FailureStreak(config: Config, ops: seq<Op>): nat {
    if ops == [] then 0
    else
      var init, last := ops[..|ops| - 1], ops[|ops| - 1];
      if After(config, FRESH, init).state != Closed then 0
      else if last.Failure? then FailureStreak(config, init) + 1
      else if last.Execute? then FailureStreak(config, init)
      else 0
  }

  /** The requests admitted since the breaker became half-open. */
  ghost function HalfOpenAdmissions(config: Config, ops: seq<Op>): nat {
    if ops == [] then 0
    else
      var init, last := ops[..|ops| - 1], ops[|ops| - 1];
      var before := if After(config, FRESH, init).state == HalfOpen then HalfOpenAdmissions(config, init) else 0;
      before + if Admits(config, After(config, FRESH, init), last) then 1 else 0
  }

  /** The successes reported since the breaker became half-open. */
  ghost function HalfOpenSuccesses(config: Config, ops: seq<Op>): nat {
    if ops == [] || After(config, FRESH, ops[..|ops| - 1]).state != HalfOpen then 0
    else HalfOpenSuccesses(config, ops[..|ops| - 1]) + if ops[|ops| - 1].Success? then 1 else 0
  }

  /** In every run: Closed counts the current streak of failures, below the
      threshold; Open and HalfOpen keep the threshold and the opening time;
      HalfOpen counts its admissions and successes, within their limits. */
  lemma {:induction false} CountersAreHistory(config: Config, ops: seq<Op>)
    ensures var b := After(config, FRESH, ops);
            && (b.state == Closed ==>
                  && b.failures == FailureStreak(config, ops) < AtLeastOne(config.failureThreshold)
                  && b.successes == 0 && b.halfOpenRequests == 0 && b.openedAt == None)
            && (b.state != Closed ==> b.failures == AtLeastOne(config.failureThreshold) && b.openedAt.Some?)
            && (b.state == Open ==> b.successes == 0 && b.halfOpenRequests == 0)
            && (b.state == HalfOpen ==>
                  && b.halfOpenRequests == HalfOpenAdmissions(config, ops)
                  && 1 <= b.halfOpenRequests <= AtLeastOne(config.halfOpenMaxRequests)
                  && b.successes == HalfOpenSuccesses(config, ops) < AtLeastOne(config.successThreshold))
    decreases |ops|
  {
    if ops != [] {
      CountersAreHistory(config, ops[..|ops| - 1]);
    }
  }

  /** A closed breaker opens at exactly the failure that completes a streak of
      `failure_threshold`. */
  lemma {:induction false} OpensExactlyAtThreshold(config: Config, ops: seq<Op>, op: Op)
    requires After(config, FRESH, ops).state == Closed
    ensures After(config, FRESH, ops + [op]).state != Closed <==>
            op.Failure? && FailureStreak(config, ops) + 1 >= config.failureThreshold
    ensures After(config, FRESH, ops + [op]).state != HalfOpen
  {
    CountersAreHistory(config, ops);
    assert (ops + [op])[..|ops|] == ops;
  }

  /** The edges of the documented state machine, besides staying put. */
  predicate DocumentedEdge(before: CircuitState, after: CircuitState) {
    || before == after
    || (before == Closed && after == Open)
    || (before == Open && after == HalfOpen)
    || (before == HalfOpen && (after == Open || after == Closed))
  }

  /** One caller at a time, only `reset` leaves the documented edges. */
  lemma {:induction false} OnlyDocumentedEdges(config: Config, b: Breaker, op: Op)
    requires !op.Reset?
    ensures DocumentedEdge(b.state, Step(config, b, op).state)
  {
  }

  // ---------------------------------------------------------------------
  // Cool-down
  // ---------------------------------------------------------------------

  ghost predicate OpensAt(config: Config, b: Breaker, ops: seq<Op>, i: nat)
    requires i < |ops|
  {
    After(config, b, ops[..i]).state != Open && After(config, b, ops[..i + 1]).state == Open
  }

  /** From an opening on, the breaker stays open with that opening time until
      some later operation comes a full timeout after it. */
  lemma {:induction false} OpenUntilTimeout(config: Config, b: Breaker, ops: seq<Op>, i: nat, j: nat)
    requires i < j <= |ops| && ClockRuns(ops) && OpensAt(config, b, ops, i)
    requires forall k :: i < k < j ==> !ops[k].Reset?
    requires forall k :: i < k < j ==> ops[k].now < ops[i].now + Timeout(config)
    ensures After(config, b, ops[..j]).state == Open
    ensures After(config, b, ops[..j]).openedAt == Some(ops[i].now)
    decreases j
  {
    assert ops[..j][..j - 1] == ops[..j - 1];
    if j > i + 1 {
      OpenUntilTimeout(config, b, ops, i, j - 1);
      assert ops[i].now <= ops[j - 1].now;
    }
  }

  /** No call is admitted within the reset timeout of an opening, unless the
      breaker is reset by hand. */
  lemma {:induction false} CoolDown(config: Config, b: Breaker, ops: seq<Op>, i: nat, j: nat)
    requires i < j < |ops| && ClockRuns(ops) && OpensAt(config, b, ops, i)
    requires forall k :: i < k < j ==> !ops[k].Reset?
    requires Admits(config, After(config, b, ops[..j]), ops[j])
    ensures ops[j].now >= ops[i].now + Timeout(config)
  {
    if ops[j].now < ops[i].now + Timeout(config) {
      forall k | i < k < j ensures ops[k].now < ops[i].now + Timeout(config) {
        assert ops[k].now <= ops[j].now;
      }
      OpenUntilTimeout(config, b, ops, i, j);
    }
  }

  // ---------------------------------------------------------------------
  // What every operation does, told from the history
  // ---------------------------------------------------------------------

  /** The operation that opened a breaker that is open now. */
  ghost function Opening(config: Config, ops: seq<Op>): (i: nat)
    requires After(config, FRESH, ops).state == Open
    ensures i < |ops| && OpensAt(config, FRESH, ops, i)
    ensures After(config, FRESH, ops).openedAt == Some(ops[i].now)
  {
    var init := ops[..|ops| - 1];
    assert ops[..|ops|] == ops;
    if After(config, FRESH, init).state == Open then
      var i := Opening(config, init);
      assert init[..i] == ops[..i] && init[..i + 1] == ops[..i + 1];
      i
    else |ops| - 1
  }

  /** A call a full timeout after the latest opening, or at any later time. */
  ghost predicate TimeoutOver(config: Config, ops: seq<Op>, now: nat)
    requires After(config, FRESH, ops).state == Open
  {
    ops[Opening(config, ops)].now + config.resetTimeoutMs * 1_000_000 <= now
  }

  lemma {:induction false} OpenedInThePast(config: Config, ops: seq<Op>, now: nat)
    requires After(config, FRESH, ops).state == Open && ClockRuns(ops + [Execute(now)])
    ensures TimeoutElapsed(config, After(config, FRESH, ops), now) <==> TimeoutOver(config, ops, now)
  {
    var all, i := ops + [Execute(now)], Opening(config, ops);
    assert all[i] == ops[i] && all[|ops|] == Execute(now);
  }

  /** Which calls are admitted in a run: every call while closed; while open,
      those a full timeout after the opening; while half-open, as many as the
      quota has left. */
  lemma {:induction false} AdmittedExactly(config: Config, ops: seq<Op>, now: nat)
    requires ClockRuns(ops + [Execute(now)])
    ensures Admits(config, After(config, FRESH, ops), Execute(now)) <==>
            match After(config, FRESH, ops).state
            case Closed => true
            case Open => TimeoutOver(config, ops, now)
            case HalfOpen => HalfOpenAdmissions(config, ops) < config.halfOpenMaxRequests
  {
    CountersAreHistory(config, ops);
    if After(config, FRESH, ops).state == Open {
      OpenedInThePast(config, ops, now);
    }
  }

  /** And in which state each operation of a run leaves the breaker. */
  lemma {:induction false} StateExactly(config: Config, ops: seq<Op>, op: Op)
    requires ClockRuns(ops + [op])
    ensures After(config, FRESH, ops + [op]).state ==
            if op.Reset? then Closed
            else match After(config, FRESH, ops).state
            case Closed =>
              if op.Failure? && FailureStreak(config, ops) + 1 >= config.failureThreshold then Open else Closed
            case Open => if op.Execute? && TimeoutOver(config, ops, op.now) then HalfOpen else Open
            case HalfOpen =>
              if op.Failure? then Open
              else if op.Success? && HalfOpenSuccesses(config, ops) + 1 >= config.successThreshold then Closed
              else HalfOpen
  {
    CountersAreHistory(config, ops);
    assert (ops + [op])[..|ops|] == ops;
    if After(config, FRESH, ops).state == Open && op.Execute? {
      OpenedInThePast(config, ops, op.now);
    }
  }

  /** A rejected call learns how long to wait: a whole millisecond more than it
      was told is enough, and what it was told is never too much. */
  lemma {:induction false} WaitAsTold(config: Config, ops: seq<Op>, now: nat, later: nat)
    requires After(config, FRESH, ops).state == Open && now <= later
    requires ClockRuns(ops + [Execute(now)]) && !TimeoutOver(config, ops, now)
    ensures var told := Executed(config, After(config, FRESH, ops), now).1;
            && told.Rejected? && told.reason.CircuitOpen? && told.reason.untilHalfOpenMs.Some?
            && var ms := told.reason.untilHalfOpenMs.value;
            && (later >= now + (ms + 1) * 1_000_000 ==> TimeoutOver(config, ops, later))
            && (later < now + ms * 1_000_000 ==> !TimeoutOver(config, ops, later))
            && (TimeoutOver(config, ops, later) ==> Admits(config, After(config, FRESH, ops), Execute(later)))
  {
    var all, i := ops + [Execute(now)], Opening(config, ops);
    OpenedInThePast(config, ops, now);
    assert all[i] == ops[i] && all[|ops|] == Execute(now);
    var left := config.resetTimeoutMs * 1_000_000 - (now - ops[i].now);
    assert (left / 1_000_000) * 1_000_000 <= left < (left / 1_000_000 + 1) * 1_000_000;
  }

  /** The latest failure since the last reset, if any. */
  function LatestFailure(ops: seq<Op>): nat {
    if ops == [] then 0
    else match ops[|ops| - 1]
      case Failure(_, wall) => wall
      case Reset(_) => 0
      case _ => LatestFailure(ops[..|ops| - 1])
  }

  lemma {:induction false} LastFailureRecorded(config: Config, ops: seq<Op>)
    ensures After(config, FRESH, ops).lastFailureTime == LatestFailure(ops)
  {
    if ops != [] {
      LastFailureRecorded(config, ops[..|ops| - 1]);
    }
  }

  // ---------------------------------------------------------------------
  // Half-open recovery
  // ---------------------------------------------------------------------

  /** A breaker right after its first half-open request was admitted. */
  ghost predicate JustHalfOpened(b: Breaker) {
    b.state == HalfOpen && b.halfOpenRequests == 1 && b.successes == 0
  }

  ghost function AdmissionsIn(config: Config, b: Breaker, ops: seq<Op>): nat {
    if ops == [] then 0
    else AdmissionsIn(config, b, ops[..|ops| - 1])
         + if Admits(config, After(config, b, ops[..|ops| - 1]), ops[|ops| - 1]) then 1 else 0
  }

  ghost function SuccessesIn(ops: seq<Op>): nat {
    if ops == [] then 0
    else SuccessesIn(ops[..|ops| - 1]) + if ops[|ops| - 1].Success? then 1 else 0
  }

  /** Only admitted requests report, once each, and every report is a success;
      the request that half-opened the breaker is one of them. */
  ghost predicate AllSucceed(config: Config, b: Breaker, ops: seq<Op>) {
    && (forall i :: 0 <= i < |ops| ==> ops[i].Execute? || ops[i].Success?)
    && (forall i :: 0 <= i <= |ops| ==> SuccessesIn(ops[..i]) <= 1 + AdmissionsIn(config, b, ops[..i]))
  }

  /** While such a run is half-open its counters are plain counts; it is closed
      as soon as the successes reach the threshold. */
  lemma {:induction false} RecoveryRun(config: Config, b: Breaker, ops: seq<Op>)
    requires JustHalfOpened(b) && AllSucceed(config, b, ops)
    ensures var c := After(config, b, ops);
            && (c.state == HalfOpen ==>
                  && c.halfOpenRequests == 1 + AdmissionsIn(config, b, ops) <= AtLeastOne(config.halfOpenMaxRequests)
                  && c.successes == SuccessesIn(ops) < AtLeastOne(config.successThreshold))
            && (c.state != HalfOpen ==>
                  c.state == Closed && config.successThreshold <= AtLeastOne(config.halfOpenMaxRequests))
    decreases |ops|
  {
    if ops != [] {
      var init := ops[..|ops| - 1];
      forall i | 0 <= i <= |init| ensures init[..i] == ops[..i] {}
      RecoveryRun(config, b, init);
      assert ops[..|ops|] == ops;
    }
  }

  /** n rounds of one request and its success. */
  function Rounds(now: nat, n: nat): (r: seq<Op>) {
    if n == 0 then [] else Rounds(now, n - 1) + [Execute(now), Success(now)]
  }

  function RecoveryOps(now: nat, n: nat): (r: seq<Op>) {
    [Success(now)] + Rounds(now, n)
  }

  /** One more request, or one more report that is due, keeps a run well-behaved. */
  lemma {:induction false} OneMore(config: Config, b: Breaker, ops: seq<Op>, op: Op)
    requires AllSucceed(config, b, ops)
    requires op.Execute? || (op.Success? && SuccessesIn(ops) <= AdmissionsIn(config, b, ops))
    ensures var longer := ops + [op];
            && AllSucceed(config, b, longer)
            && After(config, b, longer) == Step(config, After(config, b, ops), op)
            && SuccessesIn(longer) == SuccessesIn(ops) + (if op.Success? then 1 else 0)
            && AdmissionsIn(config, b, longer) ==
               AdmissionsIn(config, b, ops) + (if Admits(config, After(config, b, ops), op) then 1 else 0)
  {
    var longer := ops + [op];
    assert longer[..|ops|] == ops && ops[..|ops|] == ops;
    forall i | 0 <= i <= |longer| ensures SuccessesIn(longer[..i]) <= 1 + AdmissionsIn(config, b, longer[..i]) {
      assert if i <= |ops| then longer[..i] == ops[..i] else longer[..i] == longer;
    }
  }

  lemma {:induction false} RoundsProgress(config: Config, b: Breaker, now: nat, n: nat)
    requires JustHalfOpened(b) && n + 1 <= config.successThreshold <= config.halfOpenMaxRequests
    ensures var ops := RecoveryOps(now, n);
            && AllSucceed(config, b, ops)
            && SuccessesIn(ops) == n + 1 && AdmissionsIn(config, b, ops) == n
            && After(config, b, ops) ==
               (if n + 1 < config.successThreshold then b.(halfOpenRequests := n + 1, successes := n + 1)
                else ClosedAgain(b))
  {
    hide AllSucceed, SuccessesIn, AdmissionsIn, After, RecoveryOps;
    RecoveryOpsUnfold(now, n);
    if n == 0 {
      EmptyRun(config, b);
      OneMore(config, b, [], Success(now));
    } else {
      RoundsProgress(config, b, now, n - 1);
      var before := RecoveryOps(now, n - 1);
      OneMore(config, b, before, Execute(now));
      OneMore(config, b, before + [Execute(now)], Success(now));
    }
  }

  lemma {:induction false} EmptyRun(config: Config, b: Breaker)
    ensures AllSucceed(config, b, []) && After(config, b, []) == b
    ensures SuccessesIn([]) == 0 && AdmissionsIn(config, b, []) == 0
  {
  }

  lemma {:induction false} RecoveryOpsUnfold(now: nat, n: nat)
    ensures RecoveryOps(now, 0) == [] + [Success(now)]
    ensures n > 0 ==> RecoveryOps(now, n) == RecoveryOps(now, n - 1) + [Execute(now)] + [Success(now)]
  {
  }

  /** Half-open recovery: a half-open breaker whose admitted requests all
      succeed can close exactly when the success threshold does not exceed the
      number of half-open requests. */
  lemma {:induction false} RecoveryCharacterised(config: Config, b: Breaker)
    requires JustHalfOpened(b)
    ensures (exists ops :: AllSucceed(config, b, ops) && After(config, b, ops).state == Closed) <==>
            config.successThreshold <= AtLeastOne(config.halfOpenMaxRequests)
  {
    if ops :| AllSucceed(config, b, ops) && After(config, b, ops).state == Closed {
      RecoveryRun(config, b, ops);
    }
    if config.successThreshold <= AtLeastOne(config.halfOpenMaxRequests) {
      if config.successThreshold <= 1 {
        OneMore(config, b, [], Success(0));
        assert AllSucceed(config, b, [] + [Success(0)]);
      } else {
        RoundsProgress(config, b, 0, config.successThreshold - 1);
        assert AllSucceed(config, b, RecoveryOps(0, config.successThreshold - 1));
      }
    }
  }

  /** When the threshold does exceed it, the breaker never closes, and once the
      quota is used up it rejects every later request until it is reset. */
  lemma {:induction false} RecoveryStuck(config: Config, b: Breaker, ops: seq<Op>, now: nat)
    requires JustHalfOpened(b) && AllSucceed(config, b, ops)
    requires config.successThreshold > AtLeastOne(config.halfOpenMaxRequests)
    ensures After(config, b, ops).state == HalfOpen
    ensures 1 + AdmissionsIn(config, b, ops) == AtLeastOne(config.halfOpenMaxRequests) ==>
              Executed(config, After(config, b, ops), now) ==
                (After(config, b, ops), Rejected(HalfOpenLimitReached(config.halfOpenMaxRequests)))
  {
    RecoveryRun(config, b, ops);
  }

  /** Of the presets, `aggressive` cannot recover by itself; the others can. */
  lemma {:induction false} PresetRecovery()
    ensures AGGRESSIVE_CONFIG.successThreshold > AtLeastOne(AGGRESSIVE_CONFIG.halfOpenMaxRequests)
    ensures DEFAULT_CONFIG.successThreshold <= AtLeastOne(DEFAULT_CONFIG.halfOpenMaxRequests)
    ensures LENIENT_CONFIG.successThreshold <= AtLeastOne(LENIENT_CONFIG.halfOpenMaxRequests)
    ensures forall b, ops :: JustHalfOpened(b) && AllSucceed(AGGRESSIVE_CONFIG, b, ops) ==>
              After(AGGRESSIVE_CONFIG, b, ops).state == HalfOpen
  {
    forall b, ops | JustHalfOpened(b) && AllSucceed(AGGRESSIVE_CONFIG, b, ops)
      ensures After(AGGRESSIVE_CONFIG, b, ops).state == HalfOpen
    {
      RecoveryStuck(AGGRESSIVE_CONFIG, b, ops, 0);
    }
  }
}
