/** How many calls N concurrent callers get admitted in one half-open phase. */
module BreakerPhases {
  import opened CircuitBreaker
  import opened BreakerConcurrency
  import opened BreakerRuns

  // ---------------------------------------------------------------------
  // The state lock
  // ---------------------------------------------------------------------

  /** The thread holds the state lock for a transition. */
  predicate Holds(pc: Pc) {
    pc.StoreFailures? || pc.StoreSuccesses? || pc.StoreRequests? || pc.StoreOpenedAt? || pc.Unlock?
  }

  /** One thread at most holds the lock, and the state is the one it wrote. */
  ghost predicate Exclusive(s: Shared) {
    && (forall t :: 0 <= t < |s.threads| && Holds(s.threads[t]) ==>
          s.locked && s.state == StateAfter(s.threads[t].target))
    && (forall t, u :: 0 <= t < u < |s.threads| ==> !Holds(s.threads[t]) || !Holds(s.threads[u]))
  }

  lemma {:induction false} StepKeepsExclusive(config: Config, s: Shared, a: Action)
    requires Exclusive(s)
    ensures Exclusive(Next(config, s, a))
  {
    if a.t < |s.threads| {
      ThreadAndLock(config, s, a);
      hide Next;
    }
  }

  /** What a step does to the lock and to the state: only its holder, old or
      new, touches them. */
  lemma {:induction false} ThreadAndLock(config: Config, s: Shared, a: Action)
    requires a.t < |s.threads| && Exclusive(s)
    ensures var r := Next(config, s, a);
            var before, after := s.threads[a.t], r.threads[a.t];
            && r.threads == s.threads[a.t := after]
            && (Holds(after) ==> r.locked && r.state == StateAfter(after.target))
            && (!Holds(before) && Holds(after) ==> !s.locked)
            && (!Holds(before) && !Holds(after) ==> r.locked == s.locked && r.state == s.state)
  {
    if a.Go? && s.threads[a.t].Saw? {
      DecidingIsLockFree(config, s, a.t, s.threads[a.t].call, s.threads[a.t].seen, a.now);
    }
    hide Decided;
  }

  lemma {:induction false} DecidingIsLockFree(config: Config, s: Shared, t: nat, call: Call, seen: CircuitState, now: nat)
    requires t < |s.threads|
    ensures var r := Decided(config, s, t, call, seen, now);
            && r.threads == s.threads[t := r.threads[t]] && !Holds(r.threads[t])
            && r.locked == s.locked && r.state == s.state
  {
  }

  // ---------------------------------------------------------------------
  // What may still be admitted
  // ---------------------------------------------------------------------

  /** What a thread may still do to the counter, or get admitted, while the
      breaker stays half-open. */
  datatype Role =
    | Waiting          // found the breaker open and may still half-open it
    | Clearing         // holds the lock to half-open it and has yet to clear the counter
    | Counting         // admitted, and about to count itself
    | PastClosed       // found the breaker closed: it will be let through
    | PastHalfOpen     // found it half-open: it will look at the counter
    | Other

  function RoleOf(pc: Pc): Role {
    match pc
    case Saw(CallExecute, Open) => Waiting
    case Saw(CallExecute, Closed) => PastClosed
    case Saw(CallExecute, HalfOpen) => PastHalfOpen
    case WantLock(ToHalfOpen) => Waiting
    case StoreFailures(ToHalfOpen) => Clearing
    case StoreSuccesses(ToHalfOpen) => Clearing
    case StoreRequests(ToHalfOpen) => Clearing
    case Unlock(ToHalfOpen) => Counting
    case Increment => Counting
    case _ => Other
  }

  function In(role: Role): Pc -> bool {
    pc => RoleOf(pc) == role
  }

  /** How many threads have each role that matters. */
  datatype Crowd = Crowd(waiting: nat, clearing: nat, counting: nat, pastClosed: nat, pastHalfOpen: nat) {
    function Total(): nat { waiting + clearing + counting + pastClosed + pastHalfOpen }
  }

  function Count(threads: seq<Pc>): Crowd {
    Crowd(CountWhere(threads, In(Waiting)), CountWhere(threads, In(Clearing)), CountWhere(threads, In(Counting)),
          CountWhere(threads, In(PastClosed)), CountWhere(threads, In(PastHalfOpen)))
  }

  function One(b: bool): nat {
    if b then 1 else 0
  }

  lemma {:induction false} CountMoves(threads: seq<Pc>, t: nat, pc: Pc)
    requires t < |threads|
    ensures var before, after := RoleOf(threads[t]), RoleOf(pc);
            var c, d := Count(threads), Count(threads[t := pc]);
            && d.waiting + One(before == Waiting) == c.waiting + One(after == Waiting)
            && d.clearing + One(before == Clearing) == c.clearing + One(after == Clearing)
            && d.counting + One(before == Counting) == c.counting + One(after == Counting)
            && d.pastClosed + One(before == PastClosed) == c.pastClosed + One(after == PastClosed)
            && d.pastHalfOpen + One(before == PastHalfOpen) == c.pastHalfOpen + One(after == PastHalfOpen)
  {
    hide CountWhere, RoleOf;
    CountUpdate(threads, In(Waiting), t, pc);
    CountUpdate(threads, In(Clearing), t, pc);
    CountUpdate(threads, In(Counting), t, pc);
    CountUpdate(threads, In(PastClosed), t, pc);
    CountUpdate(threads, In(PastHalfOpen), t, pc);
  }

  lemma {:induction false} CountWithin(threads: seq<Pc>)
    ensures Count(threads).Total() <= |threads|
  {
    hide RoleOf;
    if threads != [] {
      CountWithin(threads[..|threads| - 1]);
    }
  }

  lemma {:induction false} SameCount(threads: seq<Pc>, p: Pc -> bool, q: Pc -> bool)
    requires forall pc :: p(pc) == q(pc)
    ensures CountWhere(threads, p) == CountWhere(threads, q)
  {
    if threads != [] {
      SameCount(threads[..|threads| - 1], p, q);
    }
  }

  lemma {:induction false} PendingIsCounting(threads: seq<Pc>)
    ensures PendingCount(threads) == Count(threads).counting
  {
    SameCount(threads, Pending, In(Counting));
  }

  lemma {:induction false} ClearingAtWork(threads: seq<Pc>)
    ensures Count(threads).clearing > 0 ==> exists t :: 0 <= t < |threads| && RoleOf(threads[t]) == Clearing
  {
    if threads != [] {
      var last := |threads| - 1;
      ClearingAtWork(threads[..last]);
      if t :| 0 <= t < last && RoleOf(threads[..last][t]) == Clearing {
        assert RoleOf(threads[t]) == Clearing;
      }
      assert RoleOf(threads[last]) != Clearing ==> Count(threads).clearing == Count(threads[..last]).clearing;
    }
  }

  lemma {:induction false} OneClears(s: Shared)
    requires Exclusive(s)
    ensures Count(s.threads).clearing <= 1
    ensures Count(s.threads).clearing > 0 ==> s.locked
  {
    hide CountWhere;
    ClearingAtWork(s.threads);
    if Count(s.threads).clearing > 0 {
      var t :| 0 <= t < |s.threads| && RoleOf(s.threads[t]) == Clearing;
      assert Holds(s.threads[t]);
      var others := s.threads[t := Idle];
      CountMoves(s.threads, t, Idle);
      ClearingAtWork(others);
      forall u | 0 <= u < |others| ensures RoleOf(others[u]) != Clearing {
        assert u != t ==> others[u] == s.threads[u] && !Holds(s.threads[u]);
      }
    }
  }

  /** The most that can be admitted until the counter is cleared next, with n
      threads, h of them to clear it, p pending, and r counted. */
  function Room(m: nat, n: nat, h: nat, r: nat, p: nat): nat {
    if h >= n || m + n - h - 1 < r + p then 0 else m + n - h - 1 - r - p
  }

  /** The most that can be admitted after h more clearings. */
  function Epochs(m: nat, n: nat, h: nat): nat
    requires h <= n
  {
    if h == 0 then 0 else Epochs(m, n, h - 1) + (m + n - h)
  }

  /** The most that can be admitted while the breaker stays half-open. While the
      counter is being cleared no new caller gets to read the state. */
  function AllowanceOf(m: nat, n: nat, r: nat, c: Crowd): nat
    requires c.Total() <= n
  {
    var h := c.waiting + c.clearing;
    (if c.clearing > 0 then (if r < m then c.pastHalfOpen else 0) else Room(m, n, h, r, c.counting))
    + c.pastClosed + Epochs(m, n, h)
  }

  function Allowance(config: Config, s: Shared): nat {
    CountWithin(s.threads);
    AllowanceOf(AtLeastOne(config.halfOpenMaxRequests), |s.threads|, s.requests, Count(s.threads))
  }

  /** What a step of one thread can be while the breaker stays half-open, and what
      becomes of the counter. */
  predicate Moves(max: nat, before: Role, after: Role, locked: bool, r: nat, next: nat) {
    match (before, after)
    case (Waiting, Clearing) => !locked && next == r
    case (Waiting, Other) => next == r
    case (Clearing, Counting) => next == 0
    case (Counting, Other) => next == r + 1
    case (PastClosed, Other) => next == r
    case (PastHalfOpen, Counting) => next == r < max
    case (PastHalfOpen, Other) => next == r
    case (Other, PastHalfOpen) => !locked && next == r
    case _ => before == after && next == r
  }

  lemma {:induction false} PhaseMove(config: Config, s: Shared, a: Action)
    requires a.t < |s.threads| && Exclusive(s) && (Pending(s.threads[a.t]) ==> s.requests + 1 < U32)
    requires s.state == HalfOpen && Next(config, s, a).state == HalfOpen
    ensures var r := Next(config, s, a);
            var before, after := RoleOf(s.threads[a.t]), RoleOf(r.threads[a.t]);
            && r.threads == s.threads[a.t := r.threads[a.t]]
            && Moves(config.halfOpenMaxRequests, before, after, s.locked, s.requests, r.requests)
            && (AdmitsCall(config, s, a) ==> (before == PastClosed && after == Other) || (before != Counting && after == Counting))
  {
  }

  /** The crowd after one thread has changed its role. */
  function Moved(c: Crowd, before: Role, after: Role): Crowd
    requires before == Waiting ==> c.waiting > 0
    requires before == Clearing ==> c.clearing > 0
    requires before == Counting ==> c.counting > 0
    requires before == PastClosed ==> c.pastClosed > 0
    requires before == PastHalfOpen ==> c.pastHalfOpen > 0
  {
    Crowd(c.waiting - One(before == Waiting) + One(after == Waiting),
          c.clearing - One(before == Clearing) + One(after == Clearing),
          c.counting - One(before == Counting) + One(after == Counting),
          c.pastClosed - One(before == PastClosed) + One(after == PastClosed),
          c.pastHalfOpen - One(before == PastHalfOpen) + One(after == PastHalfOpen))
  }

  lemma {:induction false} CrowdMoves(threads: seq<Pc>, t: nat, pc: Pc)
    requires t < |threads|
    ensures var before, c := RoleOf(threads[t]), Count(threads);
            && (before == Waiting ==> c.waiting > 0) && (before == Clearing ==> c.clearing > 0)
            && (before == Counting ==> c.counting > 0) && (before == PastClosed ==> c.pastClosed > 0)
            && (before == PastHalfOpen ==> c.pastHalfOpen > 0)
            && Count(threads[t := pc]) == Moved(c, before, RoleOf(pc))
  {
    hide CountWhere, RoleOf;
    CountMoves(threads, t, Idle);
    CountMoves(threads, t, pc);
    IdleIsOther();
  }

  lemma {:induction false} IdleIsOther()
    ensures RoleOf(Idle) == Other
  {
  }

  /** The arithmetic of one step. */
  lemma {:induction false} AllowanceStep(max: nat, n: nat, locked: bool, r: nat, next: nat, c: Crowd, before: Role, after: Role)
    requires Moves(max, before, after, locked, r, next)
    requires before == Waiting ==> c.waiting > 0
    requires before == Clearing ==> c.clearing > 0
    requires before == Counting ==> c.counting > 0
    requires before == PastClosed ==> c.pastClosed > 0
    requires before == PastHalfOpen ==> c.pastHalfOpen > 0
    requires c.Total() <= n && Moved(c, before, after).Total() <= n
    requires c.clearing <= 1 && (c.clearing > 0 ==> locked)
    ensures One((before == PastClosed && after == Other) || (before != Counting && after == Counting))
            + AllowanceOf(AtLeastOne(max), n, next, Moved(c, before, after))
            <= AllowanceOf(AtLeastOne(max), n, r, c)
  {
    hide Epochs;
    var h := c.waiting + c.clearing;
    if h > 0 {
      LastEpoch(AtLeastOne(max), n, h);
    }
    if before == after {
      assert Moved(c, before, after) == c;
    }
  }

  lemma {:induction false} LastEpoch(m: nat, n: nat, h: nat)
    requires 0 < h <= n
    ensures Epochs(m, n, h) == Epochs(m, n, h - 1) + (m + n - h)
  {
  }

  lemma {:induction false} PhaseStep(config: Config, s: Shared, a: Action)
    requires Exclusive(s) && WithinBound(config, s)
    requires AtLeastOne(config.halfOpenMaxRequests) + |s.threads| - 1 < U32
    requires s.state == HalfOpen && Next(config, s, a).state == HalfOpen
    ensures One(AdmitsCall(config, s, a)) + Allowance(config, Next(config, s, a)) <= Allowance(config, s)
  {
    hide Next, Exclusive, CountWhere, Pending, RoleOf, Room, Epochs, AdmitsCall, Moves, AllowanceOf;
    if a.t >= |s.threads| {
      NothingMoves(config, s, a);
    } else {
      PhaseMove(config, s, a) by {
        CountUpdate(s.threads, Pending, a.t, Idle);
        IdleIsNotPending();
      }
      var r := Next(config, s, a);
      CrowdMoves(s.threads, a.t, r.threads[a.t]);
      OneClears(s);
      CountWithin(s.threads);
      CountWithin(r.threads);
      AllowanceStep(config.halfOpenMaxRequests, |s.threads|, s.locked, s.requests, r.requests,
                    Count(s.threads), RoleOf(s.threads[a.t]), RoleOf(r.threads[a.t]));
    }
  }

  lemma {:induction false} IdleIsNotPending()
    ensures !Pending(Idle)
  {
  }

  lemma {:induction false} NothingMoves(config: Config, s: Shared, a: Action)
    requires a.t >= |s.threads|
    ensures Next(config, s, a) == s && !AdmitsCall(config, s, a)
  {
  }

  // ---------------------------------------------------------------------
  // A half-open breaker has been half-opened
  // ---------------------------------------------------------------------

  /** A half-open breaker whose counter is cleared has a request to count. */
  ghost predicate HalfOpened(s: Shared) {
    s.state == HalfOpen ==> Count(s.threads).clearing > 0 || s.requests + Count(s.threads).counting > 0
  }

  lemma {:induction false} StepKeepsHalfOpened(config: Config, s: Shared, a: Action)
    requires Exclusive(s) && WithinBound(config, s) && HalfOpened(s)
    requires AtLeastOne(config.halfOpenMaxRequests) + |s.threads| - 1 < U32
    ensures HalfOpened(Next(config, s, a))
  {
    hide Next, Exclusive, CountWhere, Pending, RoleOf, AdmitsCall;
    var r := Next(config, s, a);
    if a.t >= |s.threads| {
      NothingMoves(config, s, a);
    } else if r.state == HalfOpen {
      CrowdMoves(s.threads, a.t, r.threads[a.t]);
      if s.state == HalfOpen {
        PhaseMove(config, s, a) by {
          CountUpdate(s.threads, Pending, a.t, Idle);
          IdleIsNotPending();
        }
      } else {
        HalfOpening(config, s, a);
        CrowdMoves(r.threads, a.t, Idle);
      }
    }
  }

  lemma {:induction false} HalfOpening(config: Config, s: Shared, a: Action)
    requires a.t < |s.threads| && s.state != HalfOpen && Next(config, s, a).state == HalfOpen
    ensures RoleOf(Next(config, s, a).threads[a.t]) == Clearing
    ensures Next(config, s, a).threads == s.threads[a.t := Next(config, s, a).threads[a.t]]
  {
  }

  // ---------------------------------------------------------------------
  // Whole phases
  // ---------------------------------------------------------------------

  ghost predicate StaysHalfOpen(config: Config, s: Shared, actions: seq<Action>) {
    forall i :: 0 <= i <= |actions| ==> Run(config, s, actions[..i]).state == HalfOpen
  }

  /** The calls that a run admits. */
  function Admissions(config: Config, s: Shared, actions: seq<Action>): nat {
    if actions == [] then 0
    else
      var init, last := actions[..|actions| - 1], actions[|actions| - 1];
      Admissions(config, s, init) + One(AdmitsCall(config, Run(config, s, init), last))
  }

  lemma {:induction false} PhasePrefix(config: Config, s: Shared, actions: seq<Action>)
    requires StaysHalfOpen(config, s, actions) && actions != []
    ensures StaysHalfOpen(config, s, actions[..|actions| - 1])
    ensures Run(config, s, actions[..|actions| - 1]).state == Run(config, s, actions).state == HalfOpen
  {
    hide Next;
    var init := actions[..|actions| - 1];
    forall i | 0 <= i <= |init| ensures Run(config, s, init[..i]).state == HalfOpen {
      assert init[..i] == actions[..i];
    }
    assert actions[..|init|] == init && actions[..|actions|] == actions;
  }

  lemma {:induction false} PhaseWithinAllowance(config: Config, s: Shared, actions: seq<Action>)
    requires Exclusive(s) && WithinBound(config, s) && StaysHalfOpen(config, s, actions)
    requires AtLeastOne(config.halfOpenMaxRequests) + |s.threads| - 1 < U32
    ensures Exclusive(Run(config, s, actions)) && WithinBound(config, Run(config, s, actions))
    ensures Admissions(config, s, actions) + Allowance(config, Run(config, s, actions)) <= Allowance(config, s)
    decreases |actions|
  {
    hide Next, Exclusive, WithinBound, Allowance, AdmitsCall;
    if actions != [] {
      var init, last := actions[..|actions| - 1], actions[|actions| - 1];
      PhasePrefix(config, s, actions);
      PhaseWithinAllowance(config, s, init);
      var before := Run(config, s, init);
      PhaseStep(config, before, last);
      StepKeepsExclusive(config, before, last);
      StepKeepsBound(config, before, last);
    }
  }

  /** What every run keeps. */
  lemma {:induction false} RunIsHalfOpened(config: Config, n: nat, actions: seq<Action>)
    requires n > 0 && AtLeastOne(config.halfOpenMaxRequests) + n - 1 < U32
    ensures var s := Run(config, Initial(n), actions); Exclusive(s) && WithinBound(config, s) && HalfOpened(s)
    decreases |actions|
  {
    hide Next, Exclusive, WithinBound, HalfOpened;
    if actions != [] {
      var init := actions[..|actions| - 1];
      RunIsHalfOpened(config, n, init);
      StepKeepsExclusive(config, Run(config, Initial(n), init), actions[|actions| - 1]);
      StepKeepsBound(config, Run(config, Initial(n), init), actions[|actions| - 1]);
      StepKeepsHalfOpened(config, Run(config, Initial(n), init), actions[|actions| - 1]);
    } else {
      InitiallyHalfOpened(config, n);
    }
  }

  lemma {:induction false} InitiallyHalfOpened(config: Config, n: nat)
    requires n > 0
    ensures Exclusive(Initial(n)) && WithinBound(config, Initial(n)) && HalfOpened(Initial(n))
  {
    AllIdle(n, Pending);
  }

  lemma {:induction false} EpochsTotal(m: nat, n: nat, h: nat)
    requires h <= n
    ensures 2 * Epochs(m, n, h) == 2 * (h * (m + n)) - h * (h + 1)
  {
    if h > 0 {
      EpochsTotal(m, n, h - 1);
      assert h * (m + n) == (h - 1) * (m + n) + (m + n);
      assert h * (h + 1) == (h - 1) * h + 2 * h;
    }
  }

  lemma {:induction false} EpochsGrow(m: nat, n: nat, h: nat, k: nat)
    requires m > 0 && h <= k <= n
    ensures Epochs(m, n, h) + (k - h) <= Epochs(m, n, k)
  {
    if h < k {
      EpochsGrow(m, n, h, k - 1);
    }
  }

  /** From any state of any run, while the breaker stays half-open, N callers get
      at most N * maximum + N (N - 1) / 2 calls admitted, however long the phase
      lasts: at most N times the counter is cleared, and each time somewhat more
      than the maximum may pass. Calls let through on an earlier reading of the
      closed state are among them. */
  lemma {:induction false} PhaseAdmissionsBounded(config: Config, n: nat, before: seq<Action>, actions: seq<Action>)
    requires n > 0 && AtLeastOne(config.halfOpenMaxRequests) + n - 1 < U32
    requires StaysHalfOpen(config, Run(config, Initial(n), before), actions)
    ensures 2 * Admissions(config, Run(config, Initial(n), before), actions)
            <= 2 * (n * AtLeastOne(config.halfOpenMaxRequests)) + n * (n - 1)
  {
    hide Next, Exclusive, WithinBound, HalfOpened, Run, Admissions;
    var s := Run(config, Initial(n), before);
    RunIsHalfOpened(config, n, before);
    StartsHalfOpen(config, s, actions);
    PhaseWithinAllowance(config, s, actions);
    hide Allowance, StaysHalfOpen;
    AllowanceBounded(config, s);
  }

  lemma {:induction false} StartsHalfOpen(config: Config, s: Shared, actions: seq<Action>)
    requires StaysHalfOpen(config, s, actions)
    ensures s.state == HalfOpen
  {
    hide Next;
    assert Run(config, s, actions[..0]) == s;
  }

  lemma {:induction false} AllowanceBounded(config: Config, s: Shared)
    requires s.state == HalfOpen && HalfOpened(s)
    ensures 2 * Allowance(config, s)
            <= 2 * (|s.threads| * AtLeastOne(config.halfOpenMaxRequests)) + |s.threads| * (|s.threads| - 1)
  {
    hide CountWhere, Epochs;
    CountWithin(s.threads);
    var m, n, c := AtLeastOne(config.halfOpenMaxRequests), |s.threads|, Count(s.threads);
    EpochsTotal(m, n, n);
    EpochsRemain(m, n, c.waiting + c.clearing);
    Triangle(m, n);
  }

  /** The clearings that can no longer happen leave room for the calls counted
      apart from them. */
  lemma {:induction false} EpochsRemain(m: nat, n: nat, h: nat)
    requires m > 0 && h <= n
    ensures Epochs(m, n, h) + (n - h) <= Epochs(m, n, n)
    ensures h < n ==> Epochs(m, n, h) + (m + n - h - 1) + (n - h - 1) <= Epochs(m, n, n)
  {
    EpochsGrow(m, n, h, n);
    if h < n {
      EpochsGrow(m, n, h + 1, n);
    }
  }

  lemma {:induction false} Triangle(m: nat, n: nat)
    ensures 2 * (n * (m + n)) - n * (n + 1) == 2 * (n * m) + n * (n - 1)
  {
    assert n * (m + n) == n * m + n * n;
  }

  // ---------------------------------------------------------------------
  // The bound of a phase is attained
  // ---------------------------------------------------------------------

  /** One more step of a phase. */
  lemma {:induction false} Onward(config: Config, s: Shared, actions: seq<Action>, a: Action) returns (longer: seq<Action>)
    requires StaysHalfOpen(config, s, actions) && Next(config, Run(config, s, actions), a).state == HalfOpen
    ensures StaysHalfOpen(config, s, longer)
    ensures Run(config, s, longer) == Next(config, Run(config, s, actions), a)
    ensures Admissions(config, s, longer) ==
            Admissions(config, s, actions) + One(AdmitsCall(config, Run(config, s, actions), a))
  {
    hide Next, AdmitsCall;
    longer := actions + [a];
    assert longer[..|actions|] == actions;
    forall i | 0 <= i <= |longer| ensures Run(config, s, longer[..i]).state == HalfOpen {
      assert if i <= |actions| then longer[..i] == actions[..i] else longer[..i] == longer;
    }
  }

  /** Threads 0..j take calls, the first q of them pending; the others still
      want to half-open the breaker. */
  function Waves(n: nat, j: nat, q: nat): (threads: seq<Pc>) {
    seq(n, i => if i > j then WantLock(ToHalfOpen) else if i < q then Increment else Idle)
  }

  function Wave(config: Config, n: nat, j: nat, q: nat, r: nat): Shared {
    Shared(HalfOpen, false, AtLeastOne(config.failureThreshold), 0, r, Some(0), Waves(n, j, q))
  }

  /** All callers found the timeout elapsed; thread 0 just took the lock. */
  function PhaseStart(config: Config, n: nat): Shared
    requires n > 0
  {
    Shared(HalfOpen, true, AtLeastOne(config.failureThreshold), 0, 0, Some(0),
           Standing(n, n, WantLock(ToHalfOpen))[0 := StoreSuccesses(ToHalfOpen)])
  }

  lemma {:induction false} PhaseStarts(config: Config, n: nat) returns (before: seq<Action>)
    requires n > 0 && config.failureThreshold < U32
    ensures Run(config, Initial(n), before) == PhaseStart(config, n)
  {
    hide Run, Until;
    before := AllStale(config, n, n);
    before := Extend(config, n, before, Go(0, Timeout(config)), Timeout(config));
  }

  /** What the first j waves admit: each wave the maximum, and one call more for
      every thread that joined before it. */
  function Waved(m: nat, j: nat): nat {
    if j == 0 then 0 else Waved(m, j - 1) + m + (j - 1)
  }

  lemma {:induction false} WavedSum(m: nat, j: nat)
    ensures 2 * Waved(m, j) == 2 * (j * m) + j * (j - 1)
  {
    if j > 0 {
      WavedSum(m, j - 1);
      assert j * m == (j - 1) * m + m;
      assert j * (j - 1) == (j - 1) * (j - 2) + 2 * (j - 1);
    }
  }

  /** Thread j clears the counter and joins the threads that take calls. */
  lemma {:induction false} Join(config: Config, n: nat, j: nat) returns (actions: seq<Action>)
    requires j < n && config.failureThreshold < U32
    requires 0 < config.halfOpenMaxRequests && config.halfOpenMaxRequests + n - 1 < U32
    ensures StaysHalfOpen(config, PhaseStart(config, n), actions)
    ensures Run(config, PhaseStart(config, n), actions) == Wave(config, n, j, 0, 0).(threads := Waves(n, j, 0)[j := Increment])
    ensures Admissions(config, PhaseStart(config, n), actions) == Waved(config.halfOpenMaxRequests, j) + 1
    decreases j, 0
  {
    hide Run, StaysHalfOpen, Admissions;
    var s, go := PhaseStart(config, n), Go(j, Timeout(config));
    if j == 0 {
      actions := [];
      EmptyPhase(config, s);
    } else {
      actions := FullWave(config, n, j - 1);
      actions := Onward(config, s, actions, go);
    }
    var held := Shared(HalfOpen, true, AtLeastOne(config.failureThreshold), 0, Run(config, s, actions).requests, Some(0),
                       Waves(n, j, 0)[j := StoreSuccesses(ToHalfOpen)]);
    assert Run(config, s, actions).threads == held.threads;
    assert Run(config, s, actions) == held;
    actions := Onward(config, s, actions, go);
    actions := Onward(config, s, actions, go);
    assert Run(config, s, actions).threads == Waves(n, j, 0)[j := Unlock(ToHalfOpen)];
    actions := Onward(config, s, actions, go);
    assert Run(config, s, actions).threads == Waves(n, j, 0)[j := Increment];
  }

  lemma {:induction false} EmptyPhase(config: Config, s: Shared)
    requires s.state == HalfOpen
    ensures Run(config, s, []) == s && StaysHalfOpen(config, s, []) && Admissions(config, s, []) == 0
  {
  }

  /** Thread j counts itself and passes the check again, k times. */
  lemma {:induction false} Fill(config: Config, n: nat, j: nat, k: nat) returns (actions: seq<Action>)
    requires j < n && config.failureThreshold < U32
    requires k < config.halfOpenMaxRequests && config.halfOpenMaxRequests + n - 1 < U32
    ensures StaysHalfOpen(config, PhaseStart(config, n), actions)
    ensures Run(config, PhaseStart(config, n), actions) == Wave(config, n, j, 0, k).(threads := Waves(n, j, 0)[j := Increment])
    ensures Admissions(config, PhaseStart(config, n), actions) == Waved(config.halfOpenMaxRequests, j) + 1 + k
    decreases j, 1, k
  {
    hide Run, StaysHalfOpen, Admissions;
    if k == 0 {
      actions := Join(config, n, j);
    } else {
      var s := PhaseStart(config, n);
      actions := Fill(config, n, j, k - 1);
      actions := Onward(config, s, actions, Go(j, Timeout(config)));
      assert Run(config, s, actions).threads == Waves(n, j, 0);
      actions := Onward(config, s, actions, Start(j, CallExecute));
      actions := Onward(config, s, actions, Go(j, Timeout(config)));
      assert Run(config, s, actions).threads == Waves(n, j, 0)[j := Increment];
    }
  }

  /** Threads 0..p pass the check too while the counter is one below its maximum. */
  lemma {:induction false} PassTogether(config: Config, n: nat, j: nat, p: nat) returns (actions: seq<Action>)
    requires p <= j < n && config.failureThreshold < U32
    requires 0 < config.halfOpenMaxRequests && config.halfOpenMaxRequests + n - 1 < U32
    ensures StaysHalfOpen(config, PhaseStart(config, n), actions)
    ensures Run(config, PhaseStart(config, n), actions) ==
            Wave(config, n, j, 0, config.halfOpenMaxRequests - 1).(threads := Waves(n, j, p)[j := Increment])
    ensures Admissions(config, PhaseStart(config, n), actions) == Waved(config.halfOpenMaxRequests, j) + config.halfOpenMaxRequests + p
    decreases j, 2, p
  {
    hide Run, StaysHalfOpen, Admissions;
    if p == 0 {
      actions := Fill(config, n, j, config.halfOpenMaxRequests - 1);
    } else {
      var s := PhaseStart(config, n);
      actions := PassTogether(config, n, j, p - 1);
      actions := Onward(config, s, actions, Start(p - 1, CallExecute));
      actions := Onward(config, s, actions, Go(p - 1, Timeout(config)));
      assert Run(config, s, actions).threads == Waves(n, j, p)[j := Increment];
    }
  }

  /** Then they all add themselves, last thread first. */
  lemma {:induction false} CountTogether(config: Config, n: nat, j: nat, q: nat) returns (actions: seq<Action>)
    requires q <= j + 1 <= n && config.failureThreshold < U32
    requires 0 < config.halfOpenMaxRequests && config.halfOpenMaxRequests + n - 1 < U32
    ensures StaysHalfOpen(config, PhaseStart(config, n), actions)
    ensures Run(config, PhaseStart(config, n), actions) == Wave(config, n, j, q, config.halfOpenMaxRequests + j - q)
    ensures Admissions(config, PhaseStart(config, n), actions) == Waved(config.halfOpenMaxRequests, j + 1)
    decreases j, 3, j + 1 - q
  {
    hide Run, StaysHalfOpen, Admissions;
    if q == j + 1 {
      actions := PassTogether(config, n, j, j);
      assert Waves(n, j, j)[j := Increment] == Waves(n, j, j + 1);
    } else {
      actions := CountTogether(config, n, j, q + 1);
      actions := Onward(config, PhaseStart(config, n), actions, Go(q, Timeout(config)));
      assert Waves(n, j, q + 1)[q := Idle] == Waves(n, j, q);
    }
  }

  lemma {:induction false} FullWave(config: Config, n: nat, j: nat) returns (actions: seq<Action>)
    requires j < n && config.failureThreshold < U32
    requires 0 < config.halfOpenMaxRequests && config.halfOpenMaxRequests + n - 1 < U32
    ensures StaysHalfOpen(config, PhaseStart(config, n), actions)
    ensures Run(config, PhaseStart(config, n), actions) == Wave(config, n, j, 0, config.halfOpenMaxRequests + j)
    ensures Admissions(config, PhaseStart(config, n), actions) == Waved(config.halfOpenMaxRequests, j + 1)
    decreases j, 4
  {
    actions := CountTogether(config, n, j, 0);
  }

  /** The bound of a phase is tight for every number of callers and every
      positive maximum. */
  lemma {:induction false} PhaseAdmissionsTight(config: Config, n: nat) returns (before: seq<Action>, actions: seq<Action>)
    requires n > 0 && config.failureThreshold < U32
    requires 0 < config.halfOpenMaxRequests && config.halfOpenMaxRequests + n - 1 < U32
    ensures StaysHalfOpen(config, Run(config, Initial(n), before), actions)
    ensures 2 * Admissions(config, Run(config, Initial(n), before), actions)
            == 2 * (n * config.halfOpenMaxRequests) + n * (n - 1)
  {
    hide Run, StaysHalfOpen, Admissions;
    before := PhaseStarts(config, n);
    actions := FullWave(config, n, n - 1);
    WavedSum(config.halfOpenMaxRequests, n);
  }

  // ---------------------------------------------------------------------
  // A maximum of zero
  // ---------------------------------------------------------------------

  /** With a maximum of zero nobody passes the check, so a call admitted uses up
      a thread that found the breaker open or closed. */
  function Candidates(s: Shared): nat {
    var c := Count(s.threads);
    c.waiting + c.clearing + c.pastClosed
  }

  lemma {:induction false} ZeroStep(config: Config, s: Shared, a: Action)
    requires Exclusive(s) && WithinBound(config, s) && config.halfOpenMaxRequests == 0 && |s.threads| < U32
    requires s.state == HalfOpen && Next(config, s, a).state == HalfOpen
    ensures One(AdmitsCall(config, s, a)) + Candidates(Next(config, s, a)) <= Candidates(s)
  {
    hide Next, Exclusive, CountWhere, Pending, RoleOf, AdmitsCall;
    if a.t >= |s.threads| {
      NothingMoves(config, s, a);
    } else {
      PhaseMove(config, s, a) by {
        CountUpdate(s.threads, Pending, a.t, Idle);
        IdleIsNotPending();
      }
      CrowdMoves(s.threads, a.t, Next(config, s, a).threads[a.t]);
    }
  }

  lemma {:induction false} ZeroPhase(config: Config, s: Shared, actions: seq<Action>)
    requires Exclusive(s) && WithinBound(config, s) && StaysHalfOpen(config, s, actions)
    requires config.halfOpenMaxRequests == 0 && |s.threads| < U32
    ensures Exclusive(Run(config, s, actions)) && WithinBound(config, Run(config, s, actions))
    ensures Admissions(config, s, actions) + Candidates(Run(config, s, actions)) <= Candidates(s)
    decreases |actions|
  {
    hide Next, Exclusive, WithinBound, Candidates, AdmitsCall;
    if actions != [] {
      var init, last := actions[..|actions| - 1], actions[|actions| - 1];
      PhasePrefix(config, s, actions);
      ZeroPhase(config, s, init);
      var before := Run(config, s, init);
      ZeroStep(config, before, last);
      StepKeepsExclusive(config, before, last);
      StepKeepsBound(config, before, last);
    }
  }

  /** With a maximum of zero a phase admits N calls at most, one for each caller. */
  lemma {:induction false} ZeroAdmissionsBounded(config: Config, n: nat, before: seq<Action>, actions: seq<Action>)
    requires 0 < n < U32 && config.halfOpenMaxRequests == 0
    requires StaysHalfOpen(config, Run(config, Initial(n), before), actions)
    ensures Admissions(config, Run(config, Initial(n), before), actions) <= n
  {
    hide Next, Exclusive, WithinBound, HalfOpened, Run, Admissions, StaysHalfOpen;
    RunIsHalfOpened(config, n, before);
    ZeroPhase(config, Run(config, Initial(n), before), actions);
    hide CountWhere;
    CountWithin(Run(config, Initial(n), before).threads);
  }

  /** Thread j clears the counter after threads 0..j. */
  lemma {:induction false} ClearInTurn(config: Config, n: nat, j: nat) returns (actions: seq<Action>)
    requires j < n && config.failureThreshold < U32
    ensures StaysHalfOpen(config, PhaseStart(config, n), actions)
    ensures Run(config, PhaseStart(config, n), actions) ==
            Wave(config, n, j, j, 0).(locked := true, threads := Waves(n, j, j)[j := Unlock(ToHalfOpen)])
    ensures Admissions(config, PhaseStart(config, n), actions) == j + 1
  {
    hide Run, StaysHalfOpen, Admissions;
    var s, go := PhaseStart(config, n), Go(j, Timeout(config));
    if j == 0 {
      actions := [];
      EmptyPhase(config, s);
      assert s.threads == Waves(n, 0, 0)[0 := StoreSuccesses(ToHalfOpen)];
    } else {
      actions := ClearInTurn(config, n, j - 1);
      actions := Onward(config, s, actions, Go(j - 1, Timeout(config)));
      assert Run(config, s, actions).threads == Waves(n, j - 1, j);
      actions := Onward(config, s, actions, go);
      assert Run(config, s, actions).threads == Waves(n, j, j)[j := StoreSuccesses(ToHalfOpen)];
    }
    actions := Onward(config, s, actions, go);
    assert Run(config, s, actions).threads == Waves(n, j, j)[j := StoreRequests(ToHalfOpen)];
    actions := Onward(config, s, actions, go);
    assert Run(config, s, actions).threads == Waves(n, j, j)[j := Unlock(ToHalfOpen)];
  }

  /** And for every number of callers some phase admits that many. */
  lemma {:induction false} ZeroAdmissionsTight(config: Config, n: nat) returns (before: seq<Action>, actions: seq<Action>)
    requires n > 0 && config.failureThreshold < U32 && config.halfOpenMaxRequests == 0
    ensures StaysHalfOpen(config, Run(config, Initial(n), before), actions)
    ensures Admissions(config, Run(config, Initial(n), before), actions) == n
  {
    hide Run, StaysHalfOpen, Admissions;
    before := PhaseStarts(config, n);
    actions := ClearInTurn(config, n, n - 1);
  }
}
