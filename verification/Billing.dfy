/** Monthly billing periods with a configurable reset day. */
module Billing {

  // A moment in UTC: calendar fields and the second of the day.
  datatype Instant = Instant(year: int, month: int, day: int, second: int) {
    predicate Valid() {
      1 <= month <= 12 && 1 <= day <= 31 && 0 <= second < 86400
    }
  }

  // A calendar date, used as the name of the period that starts on it.
  datatype Date = Date(year: int, month: int, day: int) {
    predicate Valid() {
      1 <= month <= 12 && 1 <= day <= 31
    }

    // The moment at which the date begins.
    function Midnight(): Instant {
      Instant(year, month, day, 0)
    }
  }

  // The order of time is the order of the calendar fields.
  function Ticks(t: Instant): int {
    (((t.year * 12 + t.month) * 31) + t.day) * 86400 + t.second
  }

  predicate AtOrBefore(s: Instant, t: Instant) {
    Ticks(s) <= Ticks(t)
  }

  predicate Before(s: Instant, t: Instant) {
    Ticks(s) < Ticks(t)
  }

  // A reset day outside 1 to 28 counts as the first day of the month.
  function EffectiveDay(resetDay: int): (day: int)
    ensures 1 <= day <= 28
  {
    if resetDay < 1 || resetDay > 28 then 1 else resetDay
  }

  function BillingPeriod(now: Instant, resetDay: int): Date {
    var day := EffectiveDay(resetDay);
    if now.day < day then
      if now.month - 1 < 1 then Date(now.year - 1, 12, day) else Date(now.year, now.month - 1, day)
    else Date(now.year, now.month, day)
  }

  // A date on which a counter with a reset day from 1 to 28 starts anew.
  ghost predicate ResetDate(d: Date, resetDay: int) {
    d.Valid() && d.day == resetDay
  }

  // Any other reset day is as good as the first day of the month.
  lemma OtherResetDay(now: Instant, resetDay: int)
    requires !(1 <= resetDay <= 28)
    ensures BillingPeriod(now, resetDay) == BillingPeriod(now, 1)
  {}

  // The period is the latest reset date that is not after now.
  lemma PeriodIsLatest(now: Instant, resetDay: int)
    requires now.Valid() && 1 <= resetDay <= 28
    ensures ResetDate(BillingPeriod(now, resetDay), resetDay)
    ensures AtOrBefore(BillingPeriod(now, resetDay).Midnight(), now)
    ensures forall d :: ResetDate(d, resetDay) && AtOrBefore(d.Midnight(), now) ==>
              AtOrBefore(d.Midnight(), BillingPeriod(now, resetDay).Midnight())
  {
    forall d | ResetDate(d, resetDay) && AtOrBefore(d.Midnight(), now)
      ensures AtOrBefore(d.Midnight(), BillingPeriod(now, resetDay).Midnight())
    {
      var months := now.year * 12 + now.month - (d.year * 12 + d.month);
      assert months >= 0;
    }
  }

  lemma MidnightUnique(d: Date, e: Date)
    requires d.Valid() && e.Valid() && Ticks(d.Midnight()) == Ticks(e.Midnight())
    ensures d == e
  {
    assert (d.year * 12 + d.month) * 31 + d.day == (e.year * 12 + e.month) * 31 + e.day;
    assert d.year * 12 + d.month == e.year * 12 + e.month;
  }

  lemma PeriodMonotone(s: Instant, t: Instant, resetDay: int)
    requires s.Valid() && t.Valid() && AtOrBefore(s, t)
    ensures AtOrBefore(BillingPeriod(s, resetDay).Midnight(), BillingPeriod(t, resetDay).Midnight())
  {
    var day := if 1 <= resetDay <= 28 then resetDay else 1;
    if day != resetDay {
      OtherResetDay(s, resetDay);
      OtherResetDay(t, resetDay);
    }
    PeriodIsLatest(s, day);
    PeriodIsLatest(t, day);
  }

  // The period changes exactly when the midnight of a reset day has been passed.
  lemma PeriodChanges(s: Instant, t: Instant, resetDay: int)
    requires s.Valid() && t.Valid() && AtOrBefore(s, t) && 1 <= resetDay <= 28
    ensures BillingPeriod(s, resetDay) != BillingPeriod(t, resetDay)
       <==> exists d :: ResetDate(d, resetDay) && Before(s, d.Midnight()) && AtOrBefore(d.Midnight(), t)
  {
    var p, q := BillingPeriod(s, resetDay), BillingPeriod(t, resetDay);
    PeriodIsLatest(s, resetDay);
    PeriodIsLatest(t, resetDay);
    if p != q {
      if AtOrBefore(q.Midnight(), s) {
        MidnightUnique(p, q);
      }
      assert Before(s, q.Midnight());
    }
  }

  // With a fixed reset day and a clock that does not run backwards, sampling at the
  // given times rolls over to every period at most once.
  lemma RollsOncePerPeriod(times: seq<Instant>, resetDay: int, i: nat, j: nat)
    requires forall k :: 0 <= k < |times| ==> times[k].Valid()
    requires forall k, l :: 0 <= k < l < |times| ==> AtOrBefore(times[k], times[l])
    requires i < j < |times|
    requires BillingPeriod(times[j - 1], resetDay) != BillingPeriod(times[j], resetDay)
    ensures BillingPeriod(times[i], resetDay) != BillingPeriod(times[j], resetDay)
  {
    var p, q := BillingPeriod(times[i], resetDay), BillingPeriod(times[j - 1], resetDay);
    var r := BillingPeriod(times[j], resetDay);
    assert AtOrBefore(times[i], times[j - 1]) && AtOrBefore(times[j - 1], times[j]);
    PeriodMonotone(times[i], times[j - 1], resetDay);
    PeriodMonotone(times[j - 1], times[j], resetDay);
    PeriodValid(times[j - 1], resetDay);
    PeriodValid(times[j], resetDay);
    if p == r {
      MidnightUnique(q, r);
    }
  }

  lemma PeriodValid(now: Instant, resetDay: int)
    requires now.Valid()
    ensures BillingPeriod(now, resetDay).Valid()
  {}
}
