/** Points in time and the 21-bit timestamp that packets carry (time_utils.h). */
module Times {

  const NSEC_PER_SEC: int := 1000000000

  datatype Time = Time(sec: int, nsec: int)

  predicate Proper(t: Time) { 0 <= t.nsec < NSEC_PER_SEC }

  function Nanos(t: Time): int { t.sec * NSEC_PER_SEC + t.nsec }

  function Plus(a: Time, b: Time): Time {
    var s := Time(a.sec + b.sec, a.nsec + b.nsec);
    if s.nsec >= NSEC_PER_SEC then Time(s.sec + 1, s.nsec - NSEC_PER_SEC) else s
  }

  function Minus(a: Time, b: Time): Time {
    var s := Time(a.sec - b.sec, a.nsec - b.nsec);
    if s.nsec < 0 then Time(s.sec - 1, s.nsec + NSEC_PER_SEC) else s
  }

  predicate Later(a: Time, b: Time) { if a.sec == b.sec then a.nsec > b.nsec else a.sec > b.sec }

  /** Addition, subtraction and comparison are those of the number line. */
  lemma {:induction false} TimesAreNumbers(a: Time, b: Time)
    requires Proper(a) && Proper(b)
    ensures Proper(Plus(a, b)) && Nanos(Plus(a, b)) == Nanos(a) + Nanos(b)
    ensures Proper(Minus(a, b)) && Nanos(Minus(a, b)) == Nanos(a) - Nanos(b)
    ensures Later(a, b) <==> Nanos(a) > Nanos(b)
    ensures Nanos(a) == Nanos(b) ==> a == b
    ensures Plus(Minus(a, b), b) == a
  {
    if a.sec > b.sec {
      assert (a.sec - b.sec) * NSEC_PER_SEC >= NSEC_PER_SEC;
    } else if a.sec < b.sec {
      assert (b.sec - a.sec) * NSEC_PER_SEC >= NSEC_PER_SEC;
    }
  }

  // ----- difference in microseconds -----

  /** Division that drops the fraction, towards zero. */
  function Truncated(a: int, b: int): int
    requires b > 0
  {
    if a >= 0 then a / b else -(-a / b)
  }

  function DiffUs(a: Time, b: Time): int { Truncated(a.nsec - b.nsec, 1000) + (a.sec - b.sec) * 1000000 }

  /** The difference is off by less than a microsecond, to either side. */
  lemma {:induction false} DiffIsClose(a: Time, b: Time)
    ensures -1000 < Nanos(a) - Nanos(b) - 1000 * DiffUs(a, b) < 1000
  {
  }

  // ----- timestamps -----

  const SECOND_BIT: nat := 0x100000

  /** 20 bits of microseconds, one bit of seconds and the tag's indicator bit. */
  function ToStamp(t: Time): nat
    requires Proper(t) && t.sec >= 0
  {
    0x08000000 + t.sec % 2 * SECOND_BIT + t.nsec / 1000
  }

  /** The latest time not after now that the stamp fits. */
  function FromStamp(stamp: nat, now: Time): Time {
    var sec, nsec := stamp / SECOND_BIT % 2, stamp % SECOND_BIT * 1000;
    if now.sec % 2 == sec
    then Time(if now.nsec >= nsec then now.sec else now.sec - 2, nsec)
    else Time(now.sec - 1, nsec)
  }

  function Micro(t: Time): Time { Time(t.sec, t.nsec / 1000 * 1000) }

  lemma {:induction false} StampParts(t: Time)
    requires Proper(t) && t.sec >= 0
    ensures ToStamp(t) / SECOND_BIT % 2 == t.sec % 2 && ToStamp(t) % SECOND_BIT * 1000 == Micro(t).nsec
  {
    var us, hi := t.nsec / 1000, 128 + t.sec % 2;
    assert us < SECOND_BIT && ToStamp(t) == hi * SECOND_BIT + us;
  }

  /** Whole periods of two seconds between two times. */
  predicate SamePhase(a: Time, b: Time) { a.nsec == b.nsec && (a.sec - b.sec) % 2 == 0 }

  /** Within the two seconds up to now. */
  predicate Recent(t: Time, now: Time) { Nanos(now) - 2 * NSEC_PER_SEC < Nanos(t) <= Nanos(now) }

  lemma {:induction false} OnePerPeriod(a: Time, b: Time, now: Time)
    requires SamePhase(a, b) && Recent(a, now) && Recent(b, now)
    ensures a == b
  {
    var d := a.sec - b.sec;
    assert Nanos(a) - Nanos(b) == d * NSEC_PER_SEC;
  }

  /** The expanded time is the only one in the last two seconds with the phase of the stamp. */
  lemma {:induction false} ExpandedIsRecent(t: Time, now: Time)
    requires Proper(t) && t.sec >= 0 && Proper(now) && now.sec >= 0
    ensures var r := FromStamp(ToStamp(t), now); SamePhase(r, Micro(t)) && Recent(r, now)
  {
    StampParts(t);
    var r := FromStamp(ToStamp(t), now);
    assert Nanos(now) - Nanos(r) == (now.sec - r.sec) * NSEC_PER_SEC + now.nsec - r.nsec;
  }

  /** It is the stamped time, truncated to microseconds, exactly when that lies in the last two seconds. */
  lemma {:induction false} StampRoundTrip(t: Time, now: Time)
    requires Proper(t) && t.sec >= 0 && Proper(now) && now.sec >= 0
    ensures FromStamp(ToStamp(t), now) == Micro(t) <==> Recent(Micro(t), now)
  {
    ExpandedIsRecent(t, now);
    if Recent(Micro(t), now) { OnePerPeriod(FromStamp(ToStamp(t), now), Micro(t), now); }
  }

  /** Less than two seconds is not enough: the truncation may move a time out of the window. */
  lemma {:induction false} AlmostTwoSeconds()
    ensures var t, now := Time(8, 500), Time(10, 1);
            Nanos(t) > Nanos(now) - 2 * NSEC_PER_SEC && FromStamp(ToStamp(t), now) == Time(10, 0)
  {
  }
}
