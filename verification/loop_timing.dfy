/** The fixed-timestep catch-up timer: wall-clock time since start is
    accumulated as lag, and the game is updated once per 40 ms of lag.
    Durations are whole nanoseconds; the clock reading is an input. */
module LoopTiming {
  import opened Base
  import Grids

  /** Updates per second. */
  const Ups: nat := 25

  /** `MS_PER_UPDATE`: `1000 / UPS` milliseconds, in nanoseconds. */
  const MsPerUpdate: nat := (1000 / Ups) * 1_000_000

  lemma MsPerUpdateIs40ms()
    ensures MsPerUpdate == 40_000_000
  {
  }

  /** `CatchupTimer` without its start instant: the clock reading at the
      last `update_lag` and the time not yet consumed by updates. */
  datatype Timer = Timer(previousTime: nat, lag: nat)

  /** `CatchupTimer::new`. */
  function New(): (t: Timer)
    ensures t.previousTime == 0 && t.lag == 0
  {
    Timer(0, 0)
  }

  /** `update_lag`, with `current` the time elapsed since start.  The
      subtraction of durations panics if the clock went backwards;
      otherwise the lag grows by the time since the last reading, which
      becomes the new reading, and the new lag is returned. */
  function UpdateLag(t: Timer, current: nat): (r: Result<(Timer, nat)>)
    ensures r.Panic? <==> current < t.previousTime
    ensures r.Ok? ==> r.value.0 == Timer(current, t.lag + (current - t.previousTime))
    ensures r.Ok? ==> r.value.1 == r.value.0.lag
  {
    if current < t.previousTime then Panic("overflow when subtracting durations")
    else
      var t' := Timer(current, t.lag + (current - t.previousTime));
      Ok((t', t'.lag))
  }

  /** `get_iv`: how far into the next update the lag reaches, as a
      fraction of one update. */
  function GetIv(t: Timer): (iv: real)
    ensures 0.0 <= iv
    ensures t.lag < MsPerUpdate ==> iv < 1.0
  {
    assert MsPerUpdate as real == 40_000_000.0;
    t.lag as real / MsPerUpdate as real
  }

  /** `update`: one update's worth of lag is consumed; with less lag than
      that, the duration subtraction panics. */
  function Update(t: Timer): (r: Result<Timer>)
    ensures r.Panic? <==> t.lag < MsPerUpdate
    ensures r.Ok? ==> r.value.previousTime == t.previousTime && r.value.lag + MsPerUpdate == t.lag
  {
    if t.lag < MsPerUpdate then Panic("overflow when subtracting durations")
    else Ok(t.(lag := t.lag - MsPerUpdate))
  }

  /** After `k` updates, the lag is the time read so far minus the time
      the updates consumed. */
  predicate Accounted(t: Timer, k: nat) {
    t.lag + k * MsPerUpdate == t.previousTime
  }

  lemma NewAccounted()
    ensures Accounted(New(), 0)
  {
  }

  /** Reading the clock keeps the account, with the same update count. */
  lemma UpdateLagAccounted(t: Timer, k: nat, current: nat)
    requires Accounted(t, k) && current >= t.previousTime
    ensures UpdateLag(t, current).Ok? && Accounted(UpdateLag(t, current).value.0, k)
  {
  }

  /** An update keeps the account, with one more update counted. */
  lemma UpdateAccounted(t: Timer, k: nat)
    requires Accounted(t, k) && t.lag >= MsPerUpdate
    ensures Update(t).Ok? && Accounted(Update(t).value, k + 1)
  {
  }

  /** The main loop's catch-up: update while at least one update's worth
      of lag remains.  It runs exactly `lag / MS_PER_UPDATE` updates, never
      panics, and leaves less than one update's worth of lag. */
  method CatchUp(t: Timer) returns (t': Timer, n: nat)
    ensures n == t.lag / MsPerUpdate
    ensures t'.lag == t.lag % MsPerUpdate && t'.lag < MsPerUpdate
    ensures t'.previousTime == t.previousTime
  {
    t', n := t, 0;
    while t'.lag >= MsPerUpdate
      invariant t'.lag + n * MsPerUpdate == t.lag
      invariant t'.previousTime == t.previousTime
      decreases t'.lag
    {
      var r := Update(t');
      t' := r.value;
      n := n + 1;
    }
    Grids.DivUnique(t.lag, MsPerUpdate, n, t'.lag);
  }

  /** One frame of the main loop: read the clock, then catch up.  From an
      accounted state the clock reading `current` has then been turned
      into exactly `current / MS_PER_UPDATE` updates in total. */
  method Frame(t: Timer, k: nat, current: nat) returns (r: Result<(Timer, nat)>)
    requires Accounted(t, k) && t.lag < MsPerUpdate
    ensures r.Panic? <==> current < t.previousTime
    ensures r.Ok? ==> var (t', k') := r.value;
      && Accounted(t', k') && t'.lag < MsPerUpdate && k' >= k
      && t'.previousTime == current && k' == current / MsPerUpdate
  {
    var read := UpdateLag(t, current);
    if read.Panic? {
      return Panic(read.reason);
    }
    var t1 := read.value.0;
    var t2, n := CatchUp(t1);
    assert t1.lag + k * MsPerUpdate == current;
    Grids.DivUnique(current, MsPerUpdate, k + n, t2.lag);
    return Ok((t2, k + n));
  }
}
