/** The festival countdown: `calculateTimeLeft`, the one-way "live" switch,
    and what the component renders. Times are integer milliseconds, as
    `Date.prototype.getTime` gives them. */
module Countdown {
  import opened Common

  const MsPerSecond := 1000
  const MsPerMinute := 60 * MsPerSecond
  const MsPerHour := 60 * MsPerMinute
  const MsPerDay := 24 * MsPerHour

  datatype TimeLeft = TimeLeft(days: nat, hours: nat, minutes: nat, seconds: nat)

  /** The remaining time in whole days, hours, minutes and seconds, or nothing
      once the target has been reached. The parts are in range and add up to
      the remaining time rounded down to a second. */
  function TimeLeftOf(difference: int): (r: Option<TimeLeft>)
    ensures difference <= 0 <==> r.None?
    ensures r.Some? ==> r.value.hours < 24 && r.value.minutes < 60 && r.value.seconds < 60
    ensures r.Some? ==>
              var total := r.value.days * MsPerDay + r.value.hours * MsPerHour
                           + r.value.minutes * MsPerMinute + r.value.seconds * MsPerSecond;
              total <= difference < total + MsPerSecond
  {
    if difference <= 0 then None
    else
      var t := TimeLeft(difference / MsPerDay,
                        (difference % MsPerDay) / MsPerHour,
                        (difference % MsPerHour) / MsPerMinute,
                        (difference % MsPerMinute) / MsPerSecond);
      Breakdown(difference);
      Some(t)
  }

  /** Division by a positive constant is determined by quotient and remainder. */
  lemma DivModUnique(x: int, q: int, r: int, m: nat)
    requires m == MsPerSecond || m == MsPerMinute || m == MsPerHour
    requires 0 <= r < m && x == q * m + r
    ensures x / m == q && x % m == r
  {
    if m == MsPerSecond {
      assert x == q * 1000 + r;
    } else if m == MsPerMinute {
      assert x == q * 60000 + r;
    } else {
      assert x == q * 3600000 + r;
    }
  }

  /** Cutting at a larger unit first does not change the remainder for a
      smaller one that divides it. */
  lemma ModDayHour(d: nat)
    ensures (d % MsPerDay) % MsPerHour == d % MsPerHour
  {
    var r1 := d % MsPerDay;
    assert d == (d / MsPerDay) * 24 * MsPerHour + r1;
    assert r1 == (r1 / MsPerHour) * MsPerHour + r1 % MsPerHour;
    DivModUnique(d, (d / MsPerDay) * 24 + r1 / MsPerHour, r1 % MsPerHour, MsPerHour);
  }

  lemma ModHourMinute(d: nat)
    ensures (d % MsPerHour) % MsPerMinute == d % MsPerMinute
  {
    var r2 := d % MsPerHour;
    assert d == (d / MsPerHour) * 60 * MsPerMinute + r2;
    assert r2 == (r2 / MsPerMinute) * MsPerMinute + r2 % MsPerMinute;
    DivModUnique(d, (d / MsPerHour) * 60 + r2 / MsPerMinute, r2 % MsPerMinute, MsPerMinute);
  }

  lemma Breakdown(d: nat)
    ensures (d % MsPerDay) / MsPerHour < 24
    ensures (d % MsPerHour) / MsPerMinute < 60
    ensures (d % MsPerMinute) / MsPerSecond < 60
    ensures var total := (d / MsPerDay) * MsPerDay + ((d % MsPerDay) / MsPerHour) * MsPerHour
                         + ((d % MsPerHour) / MsPerMinute) * MsPerMinute
                         + ((d % MsPerMinute) / MsPerSecond) * MsPerSecond;
            total <= d < total + MsPerSecond
  {
    ModDayHour(d);
    ModHourMinute(d);
    var r1, r2, r3 := d % MsPerDay, d % MsPerHour, d % MsPerMinute;
    assert d == (d / MsPerDay) * MsPerDay + r1;
    assert r1 == (r1 / MsPerHour) * MsPerHour + r2;
    assert r2 == (r2 / MsPerMinute) * MsPerMinute + r3;
    assert r3 == (r3 / MsPerSecond) * MsPerSecond + r3 % MsPerSecond;
  }

  /** The component's state: the last value read and the "live" flag. */
  class Timer {
    var timeLeft: Option<TimeLeft>
    var isLive: bool

    constructor ()
      ensures timeLeft == None && !isLive
    {
      timeLeft := None;
      isLive := false;
    }

    /** One run of `calculateTimeLeft` at clock reading `now`: once the target
        is reached the flag is set, and nothing ever clears it. */
    method Tick(now: int, target: int)
      modifies this
      ensures timeLeft == TimeLeftOf(target - now)
      ensures isLive == (old(isLive) || target - now <= 0)
    {
      var difference := target - now;
      if difference <= 0 {
        isLive := true;
      }
      timeLeft := TimeLeftOf(difference);
    }
  }

  /** What the component shows. */
  datatype View = LiveBanner | Nothing | Units(days: string, hours: string, minutes: string, seconds: string)

  /** `String(value).padStart(2, '0')` of `TimeUnit`. */
  function UnitText(value: nat): (r: string)
    ensures AllDigits(r)
    ensures value < 100 ==> |r| == 2
    ensures value < 10 ==> r == "0" + NatToString(value)
    ensures value >= 10 ==> r == NatToString(value)
  {
    PadStart2(NatToString(value))
  }

  /** The live banner wins over everything; no value yet renders nothing. */
  function Render(isLive: bool, timeLeft: Option<TimeLeft>): (v: View)
    ensures isLive <==> v == LiveBanner
    ensures !isLive && timeLeft.None? <==> v == Nothing
    ensures !isLive && timeLeft.Some? ==>
              v == Units(UnitText(timeLeft.value.days), UnitText(timeLeft.value.hours),
                         UnitText(timeLeft.value.minutes), UnitText(timeLeft.value.seconds))
  {
    if isLive then LiveBanner
    else match timeLeft
      case None => Nothing
      case Some(t) => Units(UnitText(t.days), UnitText(t.hours), UnitText(t.minutes), UnitText(t.seconds))
  }

  /** After a tick, the banner is shown exactly when the target has been
      reached at some tick so far, and the clock digits are two wide. */
  lemma RenderAfterTick(wasLive: bool, difference: int)
    ensures (Render(wasLive || difference <= 0, TimeLeftOf(difference)) == LiveBanner) <==> (wasLive || difference <= 0)
    ensures !wasLive && difference > 0 ==>
              var v := Render(false, TimeLeftOf(difference));
              v.Units? && |v.hours| == 2 && |v.minutes| == 2 && |v.seconds| == 2
    ensures !wasLive && difference > 0 ==>
              var t := TimeLeftOf(difference).value;
              Render(false, TimeLeftOf(difference))
                == Units(UnitText(t.days), UnitText(t.hours), UnitText(t.minutes), UnitText(t.seconds))
  {
  }
}
