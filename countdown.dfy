/**
 * The countdown of components/CountdownTimer.tsx: every second it
 * recomputes the milliseconds left until the target, marks itself expired
 * (calling `onExpire`) once none are left, and renders minutes and seconds,
 * a clamped progress bar and two urgency bands.
 */
module Countdown {
  import opened Decimal

  /** The poll window the progress bar is scaled to: two minutes, in milliseconds. */
  const WindowMs: nat := 2 * 60 * 1000
  const WarningMs: nat := 30_000
  const HurryMs: nat := 60_000

  class CountdownTimer {
    var timeLeft: int
    var isExpired: bool
    /** How many times `onExpire` has been called. */
    var expireCalls: nat
    const target: int

    ghost predicate Valid()
      reads this
    {
      timeLeft >= 0
    }

    constructor (target: int)
      ensures Valid() && this.target == target
      ensures timeLeft == 0 && !isExpired && expireCalls == 0
    {
      this.target := target;
      timeLeft, isExpired, expireCalls := 0, false, 0;
    }

    /**
     * `calculateTimeLeft` at clock reading `now`: with no time left the
     * timer shows 0, is expired and calls `onExpire` (again on every later
     * tick, since the interval is never cleared); otherwise it shows the
     * milliseconds left.
     */
    method CalculateTimeLeft(now: int)
      requires Valid()
      modifies this
      ensures Valid()
      ensures target - now <= 0 ==> timeLeft == 0 && isExpired && expireCalls == old(expireCalls) + 1
      ensures target - now > 0 ==> timeLeft == target - now && isExpired == old(isExpired) && expireCalls == old(expireCalls)
      ensures old(isExpired) ==> isExpired && Render(timeLeft, isExpired) == TimesUp
    {
      var difference := target - now;
      if difference <= 0 {
        timeLeft := 0;
        isExpired := true;
        expireCalls := expireCalls + 1;
        return;
      }
      timeLeft := difference;
    }
  }

  /** `formatTime(ms)`: whole minutes and the remaining seconds, each padded to two digits. */
  function FormatTime(ms: nat): (string, string) {
    var totalSeconds := ms / 1000;
    (PadStart2(Dec(totalSeconds / 60)), PadStart2(Dec(totalSeconds % 60)))
  }

  /**
   * Both fields are digit strings of at least two characters, the seconds
   * field exactly two and below 60, and together they give back the whole
   * seconds of the input.
   */
  lemma FormatTimeFields(ms: nat)
    ensures var (minutes, seconds) := FormatTime(ms);
      && AllDigits(minutes) && AllDigits(seconds)
      && |minutes| >= 2 && |seconds| == 2
      && Value(seconds) < 60
      && Value(minutes) * 60 + Value(seconds) == ms / 1000
  {
    TwoDigitField(ms / 1000 / 60);
    TwoDigitField(ms / 1000 % 60);
  }

  /** `Math.max(0, Math.min(100, (timeLeft / 120000) * 100))`, in exact arithmetic. */
  function Progress(timeLeft: int): (p: real)
    ensures 0.0 <= p <= 100.0
    ensures 0 <= timeLeft <= WindowMs ==> p == timeLeft as real / WindowMs as real * 100.0
    ensures timeLeft <= 0 ==> p == 0.0
    ensures timeLeft >= WindowMs ==> p == 100.0
  {
    var raw := timeLeft as real / WindowMs as real * 100.0;
    var upper := if raw < 100.0 then raw else 100.0;
    if upper > 0.0 then upper else 0.0
  }

  /** The "Less than 30 seconds left!" warning: `timeLeft <= 30000 && timeLeft > 0`. */
  predicate ShowsWarning(timeLeft: int) {
    timeLeft <= WarningMs && timeLeft > 0
  }

  /** The "Hurry up!" indicator: `timeLeft <= 60000 && timeLeft > 30000`. */
  predicate ShowsHurry(timeLeft: int) {
    timeLeft <= HurryMs && timeLeft > WarningMs
  }

  /**
   * The two bands never show together, neither shows at 0 or beyond a
   * minute, and every time in between falls in exactly one of them.
   */
  lemma BandsPartition(timeLeft: int)
    ensures !(ShowsWarning(timeLeft) && ShowsHurry(timeLeft))
    ensures timeLeft <= 0 || timeLeft > HurryMs ==> !ShowsWarning(timeLeft) && !ShowsHurry(timeLeft)
    ensures 0 < timeLeft <= HurryMs ==> ShowsWarning(timeLeft) || ShowsHurry(timeLeft)
  {
  }

  /** What the component renders. */
  datatype View =
    | TimesUp
    | Running(minutes: string, seconds: string, progress: real, warning: bool, hurry: bool)

  /** The render: "Time's Up!" once expired, otherwise the clock, the bar and the bands. */
  function Render(timeLeft: nat, isExpired: bool): (v: View)
    ensures isExpired <==> v == TimesUp
    ensures v.Running? ==> !(v.warning && v.hurry) && 0.0 <= v.progress <= 100.0
  {
    if isExpired then TimesUp
    else
      BandsPartition(timeLeft);
      var (minutes, seconds) := FormatTime(timeLeft);
      Running(minutes, seconds, Progress(timeLeft), ShowsWarning(timeLeft), ShowsHurry(timeLeft))
  }
}
