/** Time remaining until an auction's deadline, as the read side reports it:
    whole minutes `max(0, int(seconds / 60))` and whole seconds
    `max(0, int(seconds % 60))`, where Python's `int` truncates toward zero
    and its float `%` takes the sign of the divisor. */
module Clock {
  import opened AuctionData

  /** Python's `int(delta / 60 s)`: the quotient truncated toward zero. */
  function TruncatedMinutes(delta: Time): int {
    if delta >= 0 then delta / MICROS_PER_MINUTE else -((-delta) / MICROS_PER_MINUTE)
  }

  /** Whole minutes left before `end` at instant `now`, never negative. */
  function MinutesRemaining(end: Time, now: Time): (m: nat)
    ensures now >= end ==> m == 0
    ensures now < end ==> m * MICROS_PER_MINUTE <= end - now < (m + 1) * MICROS_PER_MINUTE
  {
    var t := TruncatedMinutes(end - now);
    if t < 0 then 0 else t
  }

  /** The seconds part of the time left, `int(seconds % 60)`; the floor of a
      floored remainder is the floored remainder of the floor. */
  function SecondsRemaining(end: Time, now: Time): (s: nat)
    ensures s < 60
    ensures now < end ==>
      MinutesRemaining(end, now) * MICROS_PER_MINUTE + s * MICROS_PER_SECOND <= end - now
      < MinutesRemaining(end, now) * MICROS_PER_MINUTE + (s + 1) * MICROS_PER_SECOND
  {
    var delta := end - now;
    if delta > 0 then
      SplitRemaining(delta);
      (delta / MICROS_PER_SECOND) % 60
    else
      (delta / MICROS_PER_SECOND) % 60
  }

  /** A positive span is whole minutes, plus whole seconds below 60, plus
      microseconds below one second. */
  lemma SplitRemaining(delta: int)
    requires delta > 0
    ensures var s := (delta / MICROS_PER_SECOND) % 60;
      (delta / MICROS_PER_MINUTE) * MICROS_PER_MINUTE + s * MICROS_PER_SECOND <= delta
      < (delta / MICROS_PER_MINUTE) * MICROS_PER_MINUTE + (s + 1) * MICROS_PER_SECOND
  {
    var q, micros := delta / MICROS_PER_SECOND, delta % MICROS_PER_SECOND;
    var m, s := q / 60, q % 60;
    assert delta == q * MICROS_PER_SECOND + micros;
    assert q == m * 60 + s;
    assert delta == m * MICROS_PER_MINUTE + (s * MICROS_PER_SECOND + micros);
    assert 0 <= s * MICROS_PER_SECOND + micros < MICROS_PER_MINUTE;
    assert delta / MICROS_PER_MINUTE == m;
  }

  /** As time passes the minutes remaining never go up. */
  lemma MinutesRemainingNonIncreasing(end: Time, earlier: Time, later: Time)
    requires earlier <= later
    ensures MinutesRemaining(end, later) <= MinutesRemaining(end, earlier)
  {
    if later < end {
      var a, b := MinutesRemaining(end, earlier), MinutesRemaining(end, later);
      assert b * MICROS_PER_MINUTE <= end - later <= end - earlier < (a + 1) * MICROS_PER_MINUTE;
    }
  }
}
