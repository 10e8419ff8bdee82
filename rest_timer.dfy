/**
 * The rest timer as a state machine over the four globals
 * `remainingRestTime`, `totalRestTime`, `isRestTimerActive` and
 * `restTimerInterval` (here `running`, for "an interval is set").
 * The app's methods are specified by these transitions.
 */
module RestTimer {
  import opened Wrappers
  import opened RestTime

  datatype Timer = Timer(remaining: nat, total: nat, active: bool, running: bool)

  /** The countdown never exceeds the rest it counts down from. */
  predicate Valid(t: Timer)
  {
    t.remaining <= t.total
  }

  /** The values the globals start with. */
  const Initial: Timer := Timer(90, 90, false, false)

  /**
   * One firing of the interval: count down while above zero; at zero,
   * clear the interval and end the rest.
   */
  function Tick(t: Timer): (r: Timer)
    requires t.running
    ensures Valid(t) ==> Valid(r)
    ensures r.total == t.total
    ensures r.remaining == if t.remaining > 0 then t.remaining - 1 else 0
  {
    if t.remaining > 0 then t.(remaining := t.remaining - 1)
    else t.(running := false, active := false)
  }

  /** The pause/resume button: clear the interval when set, start one otherwise. */
  function Toggle(t: Timer): (r: Timer)
  {
    t.(running := !t.running)
  }

  /** The reset button: back to the full rest; a running interval is restarted. */
  function Reset(t: Timer): (r: Timer)
  {
    t.(remaining := t.total)
  }

  /** The skip button: no rest left, interval cleared, rest over. */
  function Skip(t: Timer): (r: Timer)
  {
    t.(remaining := 0, running := false, active := false)
  }

  /** Starting a rest of `seconds`: ignored while a rest is already active. */
  function Start(t: Timer, seconds: nat): (r: Timer)
  {
    if t.active then t else Timer(seconds, seconds, true, true)
  }

  /**
   * Showing an exercise whose rest text names `seconds` (if any): the
   * full and remaining rest are both set to it; the interval is left alone.
   */
  function Show(t: Timer, seconds: Option<nat>): (r: Timer)
  {
    match seconds
    case Some(n) => t.(remaining := n, total := n)
    case None => t
  }

  /** Every transition keeps the countdown within the full rest. */
  lemma TransitionsKeepValid(t: Timer, seconds: nat, shown: Option<nat>)
    requires Valid(t)
    ensures Valid(Toggle(t)) && Valid(Reset(t)) && Valid(Skip(t))
    ensures Valid(Start(t, seconds)) && Valid(Show(t, shown))
    ensures t.running ==> Valid(Tick(t))
  {
  }

  /** The state after the interval has fired `n` times; it stops firing once cleared. */
  function Ticks(t: Timer, n: nat): Timer
    decreases n
  {
    if n == 0 || !t.running then t else Ticks(Tick(t), n - 1)
  }

  /**
   * A running rest counts down one second per tick: after `remaining`
   * ticks it shows zero and is still running, and the next tick ends it.
   */
  lemma {:induction false} CountsDownToZero(t: Timer)
    requires t.running
    decreases t.remaining
    ensures Ticks(t, t.remaining) == t.(remaining := 0)
    ensures Ticks(t, t.remaining + 1) == t.(remaining := 0, running := false, active := false)
  {
    if t.remaining > 0 {
      CountsDownToZero(Tick(t));
    }
  }

  /**
   * After a skip the interval fires no more, a second skip changes
   * nothing, and the next start begins a fresh rest.
   */
  lemma SkipEndsRest(t: Timer, n: nat)
    ensures Ticks(Skip(t), n) == Skip(t)
    ensures Skip(Skip(t)) == Skip(t)
    ensures Start(Skip(t), n) == Timer(n, n, true, true)
  {
  }

  /** Pausing and resuming returns to the same state. */
  lemma ToggleTwice(t: Timer)
    ensures Toggle(Toggle(t)) == t
  {
  }

  /** `Math.floor(remaining / 60)` and `remaining % 60` of `updateTimerDisplay`. */
  function Clock(remaining: nat): (r: (nat, nat))
    ensures r.0 * 60 + r.1 == remaining
    ensures r.1 < 60
  {
    (remaining / 60, remaining % 60)
  }

  /** One field of the display: `n.toString().padStart(2, '0')`, read back. */
  lemma PaddedField(n: nat)
    ensures |PadStart2(ToDecimal(n))| >= 2 && AllDigits(PadStart2(ToDecimal(n)))
    ensures n < 100 ==> |PadStart2(ToDecimal(n))| == 2
    ensures DecimalValue(PadStart2(ToDecimal(n))) == n
  {
    DecimalRoundTrip(n);
    PaddedValue(ToDecimal(n));
  }

  /** The minute and second texts `updateTimerDisplay` writes. */
  function ClockText(remaining: nat): (r: (string, string))
    ensures |r.0| >= 2 && |r.1| == 2
    ensures AllDigits(r.0) && AllDigits(r.1)
    ensures DecimalValue(r.0) * 60 + DecimalValue(r.1) == remaining
  {
    var (m, s) := Clock(remaining);
    PaddedField(m);
    PaddedField(s);
    (PadStart2(ToDecimal(m)), PadStart2(ToDecimal(s)))
  }
}
