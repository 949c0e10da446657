/**
 * One tick of a prize's countdown (`initializeCountdown.updateCountdown`):
 * the time left until expiry, split into whole days, hours, minutes and
 * seconds, or "Expirado" once the expiry has passed. Times are whole
 * milliseconds, as `Date.prototype.getTime` returns them.
 */
module Countdown {

  const MsPerSecond: nat := 1000
  const MsPerMinute: nat := 60 * MsPerSecond
  const MsPerHour: nat := 60 * MsPerMinute
  const MsPerDay: nat := 24 * MsPerHour

  /** What the countdown element shows after one tick. */
  datatype Display =
    | Expired
    | Remaining(days: nat, hours: nat, minutes: nat, seconds: nat, expiring: bool)

  /** Milliseconds a display accounts for (the sub-second rest is dropped). */
  function Accounted(days: nat, hours: nat, minutes: nat, seconds: nat): nat {
    days * MsPerDay + hours * MsPerHour + minutes * MsPerMinute + seconds * MsPerSecond
  }

  /**
   * The countdown for an expiry seen at time `now`: "Expirado" exactly when
   * the expiry is in the past; otherwise a mixed-radix split of the distance
   * that drops less than a second, flagged as expiring under one day.
   */
  function Tick(expiry: int, now: int): (d: Display)
    ensures d.Expired? <==> expiry - now < 0
    ensures d.Remaining? ==>
              && d.hours < 24 && d.minutes < 60 && d.seconds < 60
              && Accounted(d.days, d.hours, d.minutes, d.seconds) <= expiry - now
              && expiry - now < Accounted(d.days, d.hours, d.minutes, d.seconds) + MsPerSecond
              && (d.expiring <==> expiry - now < MsPerDay)
  {
    var distance := expiry - now;
    if distance < 0 then Expired
    else
      DistanceSplit(distance);
      Remaining(distance / MsPerDay,
                (distance % MsPerDay) / MsPerHour,
                (distance % MsPerHour) / MsPerMinute,
                (distance % MsPerMinute) / MsPerSecond,
                distance < MsPerDay)
  }

  /** Euclidean division has one quotient and remainder. */
  lemma DivModUnique(n: int, m: int, q: int, r: int)
    requires m > 0 && n == q * m + r && 0 <= r < m
    ensures n / m == q && n % m == r
  {
    var k := q - n / m;
    assert k * m == n % m - r;
  }

  /** The floor divisions and remainders of one tick add back up to the distance. */
  lemma {:induction false} DistanceSplit(n: nat)
    ensures var hours := (n % MsPerDay) / MsPerHour;
            var minutes := (n % MsPerHour) / MsPerMinute;
            var seconds := (n % MsPerMinute) / MsPerSecond;
            && hours < 24 && minutes < 60 && seconds < 60
            && Accounted(n / MsPerDay, hours, minutes, seconds) + n % MsPerSecond == n
  {
    var days, r1 := n / MsPerDay, n % MsPerDay;
    var hours, r2 := r1 / MsPerHour, r1 % MsPerHour;
    DivModUnique(n, MsPerHour, days * 24 + hours, r2);
    var minutes, r3 := r2 / MsPerMinute, r2 % MsPerMinute;
    DivModUnique(n, MsPerMinute, (days * 24 + hours) * 60 + minutes, r3);
    var seconds, r4 := r3 / MsPerSecond, r3 % MsPerSecond;
    DivModUnique(n, MsPerSecond, ((days * 24 + hours) * 60 + minutes) * 60 + seconds, r4);
  }

  /**
   * The split is the only one with those bounds: any days/hours/minutes/seconds
   * and sub-second rest that add up to the distance are what `Tick` shows.
   */
  lemma {:induction false} TickIsUnique(expiry: int, now: int,
                                        days: nat, hours: nat, minutes: nat, seconds: nat, rest: nat)
    requires hours < 24 && minutes < 60 && seconds < 60 && rest < MsPerSecond
    requires Accounted(days, hours, minutes, seconds) + rest == expiry - now
    ensures Tick(expiry, now) == Remaining(days, hours, minutes, seconds, expiry - now < MsPerDay)
  {
    var n := expiry - now;
    var r3 := seconds * MsPerSecond + rest;
    var r2 := minutes * MsPerMinute + r3;
    var r1 := hours * MsPerHour + r2;
    DivModUnique(n, MsPerDay, days, r1);
    DivModUnique(r1, MsPerHour, hours, r2);
    DivModUnique(n, MsPerHour, days * 24 + hours, r2);
    DivModUnique(r2, MsPerMinute, minutes, r3);
    DivModUnique(n, MsPerMinute, (days * 24 + hours) * 60 + minutes, r3);
    DivModUnique(r3, MsPerSecond, seconds, rest);
  }
}
