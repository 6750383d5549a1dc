/** Monotonic time. */
module Clock {

  /** Time since `start`, zero if `start` lies in the future. */
  function Elapsed(now: nat, start: nat): nat {
    if start <= now then now - start else 0
  }
}
