/** The ban countdown (components/CountdownTimer.tsx): the remaining
    milliseconds shown as days, hours, minutes and seconds, and the
    once-a-second step that updates them or ends the ban. */
module Countdown {

  const MsPerSecond: int := 1000
  const MsPerMinute: int := 60000
  const MsPerHour: int := 3600000
  const MsPerDay: int := 86400000

  /** `Math.floor(a / b)` for a positive divisor. */
  function FloorDiv(a: int, b: int): (q: int)
    requires b > 0
    ensures q * b <= a < q * b + b
  {
    a / b
  }

  /** JavaScript's `a % b`, whose sign follows the dividend. */
  function JsRem(a: int, b: int): (r: int)
    requires b > 0
    ensures a >= 0 ==> 0 <= r < b && r == a % b
    ensures a < 0 ==> -b < r <= 0
  {
    if a >= 0 then a % b else -((-a) % b)
  }

  datatype Clock = Clock(days: int, hours: int, minutes: int, seconds: int)

  /** Each unit's remainder splits into the next unit's count and
      remainder; the units divide each other. */
  lemma DayRemainder(t: int)
    ensures t % MsPerDay == t % MsPerDay / MsPerHour * MsPerHour + t % MsPerHour
  {
    var r := t % MsPerDay;
    assert t == t / MsPerDay * MsPerDay + r;
    assert r == r / MsPerHour * MsPerHour + r % MsPerHour;
    assert t == (t / MsPerDay * 24 + r / MsPerHour) * MsPerHour + r % MsPerHour;
  }

  lemma HourRemainder(t: int)
    ensures t % MsPerHour == t % MsPerHour / MsPerMinute * MsPerMinute + t % MsPerMinute
  {
    var r := t % MsPerHour;
    assert t == t / MsPerHour * MsPerHour + r;
    assert r == r / MsPerMinute * MsPerMinute + r % MsPerMinute;
    assert t == (t / MsPerHour * 60 + r / MsPerMinute) * MsPerMinute + r % MsPerMinute;
  }

  lemma MinuteRemainder(t: int)
    ensures t % MsPerMinute == t % MsPerMinute / MsPerSecond * MsPerSecond + t % MsPerSecond
  {
    var r := t % MsPerMinute;
    assert t == t / MsPerMinute * MsPerMinute + r;
    assert r == r / MsPerSecond * MsPerSecond + r % MsPerSecond;
    assert t == (t / MsPerMinute * 60 + r / MsPerSecond) * MsPerSecond + r % MsPerSecond;
  }

  /** The four displayed numbers for `timeLeft` milliseconds. */
  function Decompose(timeLeft: int): (c: Clock)
    ensures timeLeft >= 0 ==> 0 <= c.days && 0 <= c.hours < 24 && 0 <= c.minutes < 60 && 0 <= c.seconds < 60
    ensures timeLeft >= 0 ==>
              c.days * MsPerDay + c.hours * MsPerHour + c.minutes * MsPerMinute + c.seconds * MsPerSecond
              + timeLeft % MsPerSecond == timeLeft
  {
    DayRemainder(timeLeft);
    HourRemainder(timeLeft);
    MinuteRemainder(timeLeft);
    Clock(
      FloorDiv(timeLeft, MsPerDay),
      FloorDiv(JsRem(timeLeft, MsPerDay), MsPerHour),
      FloorDiv(JsRem(timeLeft, MsPerHour), MsPerMinute),
      FloorDiv(JsRem(timeLeft, MsPerMinute), MsPerSecond))
  }

  /** The milliseconds a clock reading and a sub-second remainder stand for. */
  function Compose(c: Clock, ms: int): int {
    c.days * MsPerDay + c.hours * MsPerHour + c.minutes * MsPerMinute + c.seconds * MsPerSecond + ms
  }

  /** Quotient and remainder are unique: `q` units and `r` milliseconds less
      than a unit divide back into `q` and `r`. */
  lemma DayParts(q: int, r: int)
    requires 0 <= r < MsPerDay
    ensures (q * MsPerDay + r) / MsPerDay == q && (q * MsPerDay + r) % MsPerDay == r
  {
  }

  lemma HourParts(q: int, r: int)
    requires 0 <= r < MsPerHour
    ensures (q * MsPerHour + r) / MsPerHour == q && (q * MsPerHour + r) % MsPerHour == r
  {
  }

  lemma MinuteParts(q: int, r: int)
    requires 0 <= r < MsPerMinute
    ensures (q * MsPerMinute + r) / MsPerMinute == q && (q * MsPerMinute + r) % MsPerMinute == r
  {
  }

  lemma SecondParts(q: int, r: int)
    requires 0 <= r < MsPerSecond
    ensures (q * MsPerSecond + r) / MsPerSecond == q && (q * MsPerSecond + r) % MsPerSecond == r
  {
  }

  /** Every well-formed reading is what `Decompose` shows for its own
      duration: the decomposition loses only the sub-second remainder. */
  lemma DecomposeCompose(c: Clock, ms: int)
    requires 0 <= c.days && 0 <= c.hours < 24 && 0 <= c.minutes < 60 && 0 <= c.seconds < 60
    requires 0 <= ms < MsPerSecond
    ensures Decompose(Compose(c, ms)) == c
  {
    var t := Compose(c, ms);
    var inMinute := c.seconds * MsPerSecond + ms;
    var inHour := c.minutes * MsPerMinute + inMinute;
    var inDay := c.hours * MsPerHour + inHour;
    SecondParts(c.seconds, ms);
    MinuteParts(c.minutes, inMinute);
    HourParts(c.hours, inHour);
    assert t == c.days * MsPerDay + inDay;
    DayParts(c.days, inDay);
    assert t == (c.days * 24 + c.hours) * MsPerHour + inHour;
    HourParts(c.days * 24 + c.hours, inHour);
    assert t == ((c.days * 24 + c.hours) * 60 + c.minutes) * MsPerMinute + inMinute;
    MinuteParts((c.days * 24 + c.hours) * 60 + c.minutes, inMinute);
  }

  /** The timer's state: the remaining time shown, whether the interval is
      still running, and how often `onExpire` has been called. */
  class CountdownTimer {
    const expiresAt: int
    var timeLeft: int
    var running: bool
    var expireCalls: nat

    /** The callback fires once, exactly when the interval has stopped. */
    predicate Valid()
      reads this
    {
      expireCalls == if running then 0 else 1
    }

    /** Mounting at time `now`. */
    constructor (expiresAt: int, now: int)
      ensures this.expiresAt == expiresAt && timeLeft == expiresAt - now
      ensures running && expireCalls == 0 && Valid()
    {
      this.expiresAt := expiresAt;
      timeLeft := expiresAt - now;
      running := true;
      expireCalls := 0;
    }

    /** One interval callback at time `now`; once the interval is cleared
        there are no more callbacks, which is a step that changes nothing. */
    method Tick(now: int)
      requires Valid()
      modifies this`timeLeft, this`running, this`expireCalls
      ensures Valid()
      ensures !old(running) ==> timeLeft == old(timeLeft) && !running && expireCalls == old(expireCalls)
      ensures old(running) && expiresAt - now <= 0 ==>
                !running && expireCalls == old(expireCalls) + 1 && timeLeft == old(timeLeft)
      ensures old(running) && expiresAt - now > 0 ==>
                running && timeLeft == expiresAt - now && expireCalls == old(expireCalls)
    {
      if running {
        var remaining := expiresAt - now;
        if remaining <= 0 {
          running := false;
          expireCalls := expireCalls + 1;
        } else {
          timeLeft := remaining;
        }
      }
    }

    /** What the timer shows. */
    function Display(): (c: Clock)
      reads this
      ensures timeLeft >= 0 ==> 0 <= c.hours < 24 && 0 <= c.minutes < 60 && 0 <= c.seconds < 60
    {
      Decompose(timeLeft)
    }
  }
}
