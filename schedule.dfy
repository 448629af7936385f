/**
 Periodic self-scheduling on an abstract virtual clock. Times and durations are
 whole nanoseconds counted from the instant the request is made.
 */
module Schedule {

  /** `Duration::new(1, 0)`, in nanoseconds. */
  const OneSecond: nat := 1_000_000_000

  /** A request to run `action` first after `delay`, then every `period`. */
  datatype PeriodicEvent<A> = PeriodicEvent(delay: nat, period: nat, action: A)

  /** The firing instants of a periodic event whose next firing is at `next`,
      up to and including `horizon`. */
  function Firings(next: nat, period: nat, horizon: nat): seq<nat>
    requires period > 0
    decreases if next <= horizon then horizon - next + 1 else 0
  {
    if next > horizon then [] else [next] + Firings(next + period, period, horizon)
  }

  /** The i-th firing is at `next + i * period`; the firings are exactly those
      instants up to `horizon`: none when `next` is already past it, otherwise
      the last one is at or before `horizon` and the one after it is beyond. */
  lemma {:induction false} FiringsShape(next: nat, period: nat, horizon: nat)
    requires period > 0
    ensures var f := Firings(next, period, horizon);
      (f == [] <==> next > horizon) &&
      (forall i :: 0 <= i < |f| ==> f[i] == next + i * period) &&
      (f != [] ==> f[|f| - 1] <= horizon < f[|f| - 1] + period)
    decreases if next <= horizon then horizon - next + 1 else 0
  {
    if next <= horizon {
      var rest := Firings(next + period, period, horizon);
      FiringsShape(next + period, period, horizon);
      var f := Firings(next, period, horizon);
      assert f == [next] + rest;
      forall i | 0 <= i < |f|
        ensures f[i] == next + i * period
      {
        if i > 0 {
          assert f[i] == rest[i - 1];
          assert next + period + (i - 1) * period == next + i * period;
        }
      }
    }
  }
}
