/** The circuit breaker under N concurrent callers. Every load, store and
    fetch_add on the state, the three counters and the opening time is a step of
    its own; the state lock is held exclusively while a transition stores its
    fields. The time of the last failure is left out: nothing reads it. */
module BreakerConcurrency {
  import opened Clock
  import opened CircuitBreaker

  const U32: nat := 0x1_0000_0000

  datatype Call = CallExecute | CallSuccess | CallFailure | CallReset

  datatype Transition = ToOpen | ToHalfOpen | ToClosed | ToReset

  /** Where a thread stands. */
  datatype Pc =
    | Idle
    | Saw(call: Call, seen: CircuitState)      // has read the state
    | WantLock(target: Transition)             // about to take the state lock
    | StoreFailures(target: Transition)        // holds it, state written; next store: failure_count = 0
    | StoreSuccesses(target: Transition)       // next store: success_count = 0
    | StoreRequests(target: Transition)        // next store: half_open_requests = 0
    | StoreOpenedAt(target: Transition)        // next store: opened_at
    | Unlock(target: Transition)               // everything is stored
    | Increment                                // admitted half-open, fetch_add pending

  datatype Shared = Shared(
    state: CircuitState,
    locked: bool,
    failures: nat,
    successes: nat,
    requests: nat,
    openedAt: Option<nat>,
    threads: seq<Pc>)

  /** A scheduling choice: thread `t` starts a call, or takes its next step at
      the time `now`. */
  datatype Action = Start(t: nat, call: Call) | Go(t: nat, now: nat)

  function Initial(n: nat): Shared {
    Shared(Closed, false, 0, 0, 0, None, seq(n, _ => Idle))
  }

  function FetchAdd(counter: nat): nat {
    (counter + 1) % U32
  }

  lemma {:induction false} CountersWrap(counter: nat)
    ensures FetchAdd(4_294_967_295) == 0
    ensures counter < 4_294_967_295 ==> FetchAdd(counter) == counter + 1
  {
  }

  function StateAfter(target: Transition): CircuitState {
    match target
    case ToOpen => Open
    case ToHalfOpen => HalfOpen
    case ToClosed => Closed
    case ToReset => Closed
  }

  predicate ClearsFailures(target: Transition) {
    target == ToClosed || target == ToReset
  }

  predicate HasElapsed(config: Config, openedAt: Option<nat>, now: nat) {
    openedAt.Some? && Elapsed(now, openedAt.value) >= Timeout(config)
  }

  /** One step; an action that is not enabled changes nothing. */
  function Next(config: Config, s: Shared, a: Action): (r: Shared)
    ensures |r.threads| == |s.threads|
  {
    if a.t >= |s.threads| then s
    else match a
      case Start(t, call) => if s.threads[t] == Idle then Started(s, t, call) else s
      case Go(t, now) => Advanced(config, s, t, now)
  }

  function Started(s: Shared, t: nat, call: Call): (r: Shared)
    requires t < |s.threads|
    ensures |r.threads| == |s.threads|
  {
    if call == CallReset then s.(threads := s.threads[t := WantLock(ToReset)])
    else if s.locked then s
    else s.(threads := s.threads[t := Saw(call, s.state)])
  }

  function Advanced(config: Config, s: Shared, t: nat, now: nat): (r: Shared)
    requires t < |s.threads|
    ensures |r.threads| == |s.threads|
  {
    match s.threads[t]
    case Idle => s
    case Saw(call, seen) => Decided(config, s, t, call, seen, now)
    case WantLock(target) =>
      if s.locked then s
      else
        var first := if ClearsFailures(target) then StoreFailures(target) else StoreSuccesses(target);
        s.(locked := true, state := StateAfter(target), threads := s.threads[t := first])
    case StoreFailures(target) => s.(failures := 0, threads := s.threads[t := StoreSuccesses(target)])
    case StoreSuccesses(target) => s.(successes := 0, threads := s.threads[t := StoreRequests(target)])
    case StoreRequests(target) =>
      var next := if target == ToHalfOpen then Unlock(target) else StoreOpenedAt(target);
      s.(requests := 0, threads := s.threads[t := next])
    case StoreOpenedAt(target) =>
      if target == ToHalfOpen then s      // half-opening stores no time and never gets here
      else s.(openedAt := if target == ToOpen then Some(now) else None, threads := s.threads[t := Unlock(target)])
    case Unlock(target) =>
      s.(locked := false, threads := s.threads[t := if target == ToHalfOpen then Increment else Idle])
    case Increment => s.(requests := FetchAdd(s.requests), threads := s.threads[t := Idle])
  }

  function Decided(config: Config, s: Shared, t: nat, call: Call, seen: CircuitState, now: nat): (r: Shared)
    requires t < |s.threads|
    ensures |r.threads| == |s.threads|
  {
    var idle := s.(threads := s.threads[t := Idle]);
    match (call, seen)
    case (CallExecute, Open) =>
      if HasElapsed(config, s.openedAt, now) then s.(threads := s.threads[t := WantLock(ToHalfOpen)]) else idle
    case (CallExecute, HalfOpen) =>
      if s.requests < config.halfOpenMaxRequests then s.(threads := s.threads[t := Increment]) else idle
    case (CallSuccess, Closed) => idle.(failures := 0)
    case (CallSuccess, HalfOpen) =>
      var counted := s.(successes := FetchAdd(s.successes));
      counted.(threads := s.threads[t := if counted.successes >= config.successThreshold then WantLock(ToClosed) else Idle])
    case (CallFailure, Closed) =>
      var counted := s.(failures := FetchAdd(s.failures));
      counted.(threads := s.threads[t := if counted.failures >= config.failureThreshold then WantLock(ToOpen) else Idle])
    case (CallFailure, HalfOpen) => s.(threads := s.threads[t := WantLock(ToOpen)])
    case _ => idle
  }

  function Run(config: Config, s: Shared, actions: seq<Action>): (r: Shared)
    ensures |r.threads| == |s.threads|
    decreases |actions|
  {
    if actions == [] then s
    else Next(config, Run(config, s, actions[..|actions| - 1]), actions[|actions| - 1])
  }

  // ---------------------------------------------------------------------
  // The bound
  // ---------------------------------------------------------------------

  /** The thread has passed the limit check, or reset the counter for its own
      first request, and has not added itself yet. */
  predicate Pending(pc: Pc) {
    pc == Increment || pc == Unlock(ToHalfOpen)
  }

  /** The step admits a call: the call found the breaker closed, it passes the
      check of the counter, or it clears the counter for the request that half-
      opens the breaker. */
  predicate AdmitsCall(config: Config, s: Shared, a: Action) {
    && a.Go? && a.t < |s.threads|
    && (|| s.threads[a.t] == Saw(CallExecute, Closed)
        || (!Pending(s.threads[a.t]) && Pending(Next(config, s, a).threads[a.t])))
  }

  function CountWhere(threads: seq<Pc>, p: Pc -> bool): (n: nat)
    ensures n <= |threads|
  {
    if threads == [] then 0
    else CountWhere(threads[..|threads| - 1], p) + if p(threads[|threads| - 1]) then 1 else 0
  }

  function PendingCount(threads: seq<Pc>): (n: nat)
    ensures n <= |threads|
  {
    CountWhere(threads, Pending)
  }

  lemma {:induction false} CountUpdate(threads: seq<Pc>, p: Pc -> bool, t: nat, pc: Pc)
    requires t < |threads|
    ensures CountWhere(threads[t := pc], p) ==
            CountWhere(threads, p) - (if p(threads[t]) then 1 else 0) + (if p(pc) then 1 else 0)
    ensures !p(threads[t]) ==> CountWhere(threads, p) < |threads|
    decreases |threads|
  {
    var last := |threads| - 1;
    if t < last {
      CountUpdate(threads[..last], p, t, pc);
      assert threads[t := pc][..last] == threads[..last][t := pc];
    } else {
      assert threads[t := pc][..last] == threads[..last];
    }
  }

  ghost predicate WithinBound(config: Config, s: Shared) {
    s.requests + PendingCount(s.threads) <= AtLeastOne(config.halfOpenMaxRequests) + |s.threads| - 1
  }

  lemma {:induction false} StepKeepsBound(config: Config, s: Shared, a: Action)
    requires WithinBound(config, s)
    ensures WithinBound(config, Next(config, s, a))
  {
    if a.t < |s.threads| {
      OneThreadMoves(config, s, a);
      CountUpdate(s.threads, Pending, a.t, Next(config, s, a).threads[a.t]);
    }
  }

  /** What a step means for the bound: it moves one thread only, and the thread
      becomes pending only past the check or as it clears the counter. */
  lemma {:induction false} OneThreadMoves(config: Config, s: Shared, a: Action)
    requires a.t < |s.threads|
    ensures var r := Next(config, s, a);
            && r.threads == s.threads[a.t := r.threads[a.t]]
            && (Pending(r.threads[a.t]) && !Pending(s.threads[a.t]) ==>
                  r.requests == 0 || (r.requests == s.requests < config.halfOpenMaxRequests))
            && (Pending(r.threads[a.t]) && Pending(s.threads[a.t]) ==> r.requests == s.requests)
            && (!Pending(r.threads[a.t]) && Pending(s.threads[a.t]) ==> r.requests <= s.requests + 1)
            && (!Pending(r.threads[a.t]) && !Pending(s.threads[a.t]) ==> r.requests <= s.requests)
  {
    assert FetchAdd(s.requests) <= s.requests + 1;
  }

  lemma {:induction false} RunKeepsBound(config: Config, s: Shared, actions: seq<Action>)
    requires WithinBound(config, s)
    ensures WithinBound(config, Run(config, s, actions))
    decreases |actions|
  {
    if actions != [] {
      RunKeepsBound(config, s, actions[..|actions| - 1]);
      StepKeepsBound(config, Run(config, s, actions[..|actions| - 1]), actions[|actions| - 1]);
    }
  }

  lemma {:induction false} AllIdle(n: nat, p: Pc -> bool)
    requires !p(Idle)
    ensures CountWhere(seq(n, _ => Idle), p) == 0
  {
    if n > 0 {
      var threads: seq<Pc> := seq(n, _ => Idle);
      assert threads[..n - 1] == seq(n - 1, _ => Idle);
      AllIdle(n - 1, p);
    }
  }

  /** With N callers the half-open counter never exceeds the configured maximum
      by more than N - 1, in any interleaving. */
  lemma {:induction false} ConcurrentBound(config: Config, n: nat, actions: seq<Action>)
    requires n > 0
    ensures Run(config, Initial(n), actions).requests <= AtLeastOne(config.halfOpenMaxRequests) + n - 1
  {
    AllIdle(n, Pending);
    RunKeepsBound(config, Initial(n), actions);
  }
}
