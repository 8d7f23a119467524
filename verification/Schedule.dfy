/** When certificates and route lists are refreshed, in a zone with a fixed offset. */
module Schedule {
  import opened Wrappers
  import opened Text

  // Times are nanoseconds since the start of 1970 in UTC.
  const MINUTE: int := 60_000_000_000
  const HOUR: int := 3600_000_000_000
  const DAY: int := 86400_000_000_000
  const BACKOFF: int := 1800_000_000_000
  const MAX_INT: int := 0x7fff_ffff_ffff_ffff

  datatype Plan = Plan(frequency: string, weekday: int, at: string)

  // What is stored about the last refreshes; no time means never.
  datatype Asset = Asset(lastSuccess: Option<int>, lastAttempt: Option<int>, lastError: string)

  function Atoi(s: string): Option<int> {
    var digits := if |s| > 0 && (s[0] == '+' || s[0] == '-') then s[1..] else s;
    if !IsNumber(digits) then None
    else
      var value: int := Value(digits);
      var n := if s[0] == '-' then -value else value;
      if -MAX_INT - 1 <= n <= MAX_INT then Some(n) else None
  }

  function ParseAt(at: string): Option<(int, int)> {
    var parts := Split(at, ':');
    if |parts| != 2 then None
    else
      match (Atoi(parts[0]), Atoi(parts[1]))
      case (Some(hour), Some(minute)) => Some((hour, minute))
      case _ => None
  }

  function LocalDay(t: int, offset: int): int {
    (t + offset) / DAY
  }

  // Sunday is 0; the first day of 1970 was a Thursday.
  function Weekday(day: int): (w: int)
    ensures 0 <= w < 7
  {
    (day + 4) % 7
  }

  // The remainder with the sign of the dividend.
  function Rem(a: int, b: int): int
    requires b > 0
  {
    if a >= 0 then a % b else -((-a) % b)
  }

  function Scheduled(weekly: bool, weekday: int, hour: int, minute: int, now: int, offset: int): int {
    var today := LocalDay(now, offset) * DAY + hour * HOUR + minute * MINUTE - offset;
    var scheduled :=
      if weekly then today - Rem(Weekday(LocalDay(now, offset)) - weekday + 7, 7) * DAY else today;
    if scheduled > now then scheduled - (if weekly then 7 * DAY else DAY) else scheduled
  }

  // The last attempt failed, less than half an hour ago.
  predicate BackingOff(a: Asset, now: int) {
    a.lastError != "" && a.lastAttempt.Some? && now - a.lastAttempt.value < BACKOFF
  }

  predicate Due(plan: Plan, a: Asset, now: int, offset: int) {
    if plan.frequency == "manual" then false
    else if BackingOff(a, now) then false
    else
      match ParseAt(plan.at)
      case None => false
      case Some((hour, minute)) =>
        a.lastSuccess == None
        || a.lastSuccess.value < Scheduled(plan.frequency == "weekly", plan.weekday, hour, minute, now, offset)
  }

  // ----- What the stored plans look like

  predicate ValidAt(at: string) {
    && |at| == 5 && at[2] == ':'
    && IsDigit(at[0]) && IsDigit(at[1]) && IsDigit(at[3]) && IsDigit(at[4])
    && (at[0] <= '1' || (at[0] == '2' && at[1] <= '3')) && at[3] <= '5'
  }

  predicate ValidPlan(plan: Plan) {
    && plan.frequency in {"manual", "daily", "weekly"}
    && (plan.frequency != "manual" ==> ValidAt(plan.at))
    && (plan.frequency == "weekly" ==> 0 <= plan.weekday <= 6)
  }

  lemma TwoDigits(s: string)
    requires |s| == 2 && IsDigit(s[0]) && IsDigit(s[1])
    ensures Atoi(s) == Some((s[0] as int - '0' as int) * 10 + (s[1] as int - '0' as int))
  {
    assert s[..1] == [s[0]];
    assert s[..1][..0] == "";
    assert Value("") == 0;
    assert Value(s[..1]) == s[0] as int - '0' as int;
  }

  function DigitOf(c: char): int {
    c as int - '0' as int
  }

  // Accepted are the times of a day in two digits each.
  lemma ValidAtIs(at: string)
    ensures ValidAt(at) <==>
            && |at| == 5 && at[2] == ':' && (forall i :: 0 <= i < 5 && i != 2 ==> IsDigit(at[i]))
            && 10 * DigitOf(at[0]) + DigitOf(at[1]) < 24 && 10 * DigitOf(at[3]) + DigitOf(at[4]) < 60
  {}

  lemma ValidAtParses(at: string)
    requires ValidAt(at)
    ensures ParseAt(at) == Some((10 * DigitOf(at[0]) + DigitOf(at[1]), 10 * DigitOf(at[3]) + DigitOf(at[4])))
    ensures 0 <= ParseAt(at).value.0 < 24 && 0 <= ParseAt(at).value.1 < 60
  {
    var hour, minute := at[..2], at[3..];
    assert at == hour + [':'] + minute;
    SplitFirst(hour, ':', minute);
    SplitNone(minute, ':');
    TwoDigits(hour);
    TwoDigits(minute);
  }

  // ----- Slots

  ghost predicate Automatic(plan: Plan) {
    ValidPlan(plan) && plan.frequency != "manual"
  }

  function TimeOfDay(plan: Plan): (t: int)
    requires Automatic(plan)
    ensures 0 <= t < DAY
  {
    ValidAtParses(plan.at);
    var (hour, minute) := ParseAt(plan.at).value;
    hour * HOUR + minute * MINUTE
  }

  // A plan "hh:mm" asks for the moments hh hours and mm minutes into a local day; a weekly one
  // counts the weekdays from a Sunday, such as the fourth day of 1970.
  lemma {:induction false} SlotIs(plan: Plan, offset: int, s: int)
    requires Automatic(plan)
    ensures var hour := 10 * DigitOf(plan.at[0]) + DigitOf(plan.at[1]);
            var minute := 10 * DigitOf(plan.at[3]) + DigitOf(plan.at[4]);
            var day, time := (s + offset) / 86_400_000_000_000, (s + offset) % 86_400_000_000_000;
            IsSlot(plan, offset, s) <==>
            time == (hour * 60 + minute) * 60_000_000_000
            && (plan.frequency == "weekly" ==> (day - 3) % 7 == plan.weekday)
  {
    TimeIs(plan);
    FromSunday(LocalDay(s, offset));
  }

  lemma {:induction false} TimeIs(plan: Plan)
    requires Automatic(plan)
    ensures var hour := 10 * DigitOf(plan.at[0]) + DigitOf(plan.at[1]);
            var minute := 10 * DigitOf(plan.at[3]) + DigitOf(plan.at[4]);
            TimeOfDay(plan) == (hour * 60 + minute) * 60_000_000_000
  {
    ValidAtParses(plan.at);
  }

  lemma FromSunday(day: int)
    ensures Weekday(day) == (day - 3) % 7
  {}

  // A moment that the plan asks for: the time of day, on the weekday if it is weekly.
  ghost predicate IsSlot(plan: Plan, offset: int, s: int)
    requires Automatic(plan)
  {
    Matches(plan.frequency == "weekly", plan.weekday, TimeOfDay(plan), offset, s)
  }

  predicate Matches(weekly: bool, weekday: int, time: int, offset: int, s: int) {
    (s + offset) % DAY == time && (weekly ==> Weekday(LocalDay(s, offset)) == weekday)
  }

  function LatestSlot(plan: Plan, offset: int, now: int): int
    requires Automatic(plan)
  {
    ValidAtParses(plan.at);
    var (hour, minute) := ParseAt(plan.at).value;
    Scheduled(plan.frequency == "weekly", plan.weekday, hour, minute, now, offset)
  }

  // Among the moments on every period-th day at the same time of day, stepping back from
  // the last such day gives the latest one that has come.
  lemma LatestMoment(time: int, day: int, clock: int, back: int, period: int, d: int)
    requires 0 <= time < DAY && 0 <= clock < DAY && 0 <= back < period && (period == 1 || period == 7)
    ensures var slot := (day - back) * DAY + time;
            var latest := if slot > day * DAY + clock then slot - period * DAY else slot;
            latest <= day * DAY + clock
            && ((d - (day - back)) % period == 0 && d * DAY + time <= day * DAY + clock ==> d * DAY + time <= latest)
  {}

  lemma MomentMatches(weekly: bool, weekday: int, time: int, offset: int, d: int)
    requires 0 <= time < DAY && (weekly ==> Weekday(d) == weekday)
    ensures Matches(weekly, weekday, time, offset, d * DAY + time - offset)
  {}

  lemma SameWeekday(d: int, e: int)
    ensures Weekday(d) == Weekday(e) <==> (e - d) % 7 == 0
  {}

  // The last day up to this one, and the one a week before it, that fall on a weekday.
  lemma LastWeekday(day: int, weekday: int)
    requires 0 <= weekday <= 6
    ensures var back := Rem(Weekday(day) - weekday + 7, 7);
            0 <= back < 7 && Weekday(day - back) == weekday && Weekday(day - back - 7) == weekday
  {}

  lemma SlotIsLatest(weekly: bool, weekday: int, time: int, now: int, offset: int, back: int, period: int, s: int)
    requires 0 <= time < DAY && 0 <= back < period && period == if weekly then 7 else 1
    requires weekly ==> Weekday(LocalDay(now, offset) - back) == weekday
                        && Weekday(LocalDay(now, offset) - back - 7) == weekday
    ensures var today := (LocalDay(now, offset) - back) * DAY + time - offset;
            var slot := if today > now then today - period * DAY else today;
            slot <= now && Matches(weekly, weekday, time, offset, slot)
            && (Matches(weekly, weekday, time, offset, s) && s <= now ==> s <= slot)
  {
    var day := LocalDay(now, offset);
    LatestMoment(time, day, (now + offset) % DAY, back, period, LocalDay(s, offset));
    MomentMatches(weekly, weekday, time, offset, day - back);
    MomentMatches(weekly, weekday, time, offset, day - back - period);
    SameWeekday(day - back, LocalDay(s, offset));
  }

  lemma ScheduledIsLatest(weekly: bool, weekday: int, hour: int, minute: int, now: int, offset: int, s: int)
    requires 0 <= hour < 24 && 0 <= minute < 60 && (weekly ==> 0 <= weekday <= 6)
    ensures var time, slot := hour * HOUR + minute * MINUTE, Scheduled(weekly, weekday, hour, minute, now, offset);
            slot <= now && Matches(weekly, weekday, time, offset, slot)
            && (Matches(weekly, weekday, time, offset, s) && s <= now ==> s <= slot)
  {
    var day, time := LocalDay(now, offset), hour * HOUR + minute * MINUTE;
    if weekly {
      LastWeekday(day, weekday);
      SlotIsLatest(true, weekday, time, now, offset, Rem(Weekday(day) - weekday + 7, 7), 7, s);
    } else {
      SlotIsLatest(false, weekday, time, now, offset, 0, 1, s);
    }
  }

  // The computed slot is the latest one that is not in the future.
  lemma LatestSlotIs(plan: Plan, offset: int, now: int)
    requires Automatic(plan)
    ensures var slot := LatestSlot(plan, offset, now);
            IsSlot(plan, offset, slot) && slot <= now
            && forall s :: IsSlot(plan, offset, s) && s <= now ==> s <= slot
  {
    ValidAtParses(plan.at);
    var (hour, minute) := ParseAt(plan.at).value;
    forall s
      ensures IsSlot(plan, offset, LatestSlot(plan, offset, now)) && LatestSlot(plan, offset, now) <= now
      ensures IsSlot(plan, offset, s) && s <= now ==> s <= LatestSlot(plan, offset, now)
    {
      ScheduledIsLatest(plan.frequency == "weekly", plan.weekday, hour, minute, now, offset, s);
    }
  }

  // A refresh is due exactly when the last attempt did not fail within half an hour, and
  // there has been no success yet or some slot has come since the last one.
  lemma DueIffSlotMissed(plan: Plan, a: Asset, now: int, offset: int)
    requires Automatic(plan)
    ensures Due(plan, a, now, offset) <==>
            && !(a.lastError != "" && a.lastAttempt.Some? && now - a.lastAttempt.value < 1_800_000_000_000)
            && (a.lastSuccess == None || exists s :: IsSlot(plan, offset, s) && a.lastSuccess.value < s <= now)
  {
    ValidAtParses(plan.at);
    LatestSlotIs(plan, offset, now);
    assert Due(plan, a, now, offset) <==>
           !BackingOff(a, now) && (a.lastSuccess == None || a.lastSuccess.value < LatestSlot(plan, offset, now));
  }

  // ----- Runs

  // A check by the scheduler, or a refresh asked for by hand. An attempt that is made
  // starts and finishes after the check; an error message means that it failed.
  datatype Event = Event(byHand: bool, now: int, started: int, finished: int, error: string)

  function Refreshed(a: Asset, e: Event): Asset {
    Asset(if e.error == "" then Some(e.finished) else a.lastSuccess, Some(e.started), e.error)
  }

  // The state before the k-th event.
  function Before(plan: Plan, offset: int, a: Asset, events: seq<Event>, k: nat): Asset
    requires k <= |events|
  {
    if k == 0 then a
    else
      var before, e := Before(plan, offset, a, events, k - 1), events[k - 1];
      if e.byHand || Due(plan, before, e.now, offset) then Refreshed(before, e) else before
  }

  // The scheduler refreshes successfully at the k-th event.
  predicate Fires(plan: Plan, offset: int, a: Asset, events: seq<Event>, k: nat)
    requires k < |events|
  {
    && !events[k].byHand && events[k].error == ""
    && Due(plan, Before(plan, offset, a, events, k), events[k].now, offset)
  }

  ghost predicate InOrder(events: seq<Event>) {
    && (forall k :: 0 <= k < |events| ==> events[k].now <= events[k].started <= events[k].finished)
    && (forall j, k :: 0 <= j < k < |events| ==> events[j].finished <= events[k].now)
  }

  lemma {:induction false} SuccessStays(plan: Plan, offset: int, a: Asset, events: seq<Event>, j: nat, k: nat)
    requires j < k <= |events| && InOrder(events) && Fires(plan, offset, a, events, j)
    ensures var b := Before(plan, offset, a, events, k);
            b.lastSuccess.Some? && events[j].finished <= b.lastSuccess.value
    decreases k
  {
    if k > j + 1 {
      SuccessStays(plan, offset, a, events, j, k - 1);
      assert events[j].finished <= events[k - 1].now;
    }
  }

  // In every run the scheduler refreshes successfully at most once for every slot, and the
  // slots are served in order.
  lemma OncePerSlot(plan: Plan, offset: int, a: Asset, events: seq<Event>, j: nat, k: nat)
    requires Automatic(plan) && InOrder(events) && j < k < |events|
    requires Fires(plan, offset, a, events, j) && Fires(plan, offset, a, events, k)
    ensures LatestSlot(plan, offset, events[j].now) < LatestSlot(plan, offset, events[k].now)
  {
    ValidAtParses(plan.at);
    SuccessStays(plan, offset, a, events, j, k);
    LatestSlotIs(plan, offset, events[j].now);
  }

  // The scheduler tries a refresh at the k-th event, or somebody does.
  predicate Tries(plan: Plan, offset: int, a: Asset, events: seq<Event>, k: nat)
    requires k < |events|
  {
    events[k].byHand || Due(plan, Before(plan, offset, a, events, k), events[k].now, offset)
  }

  // After a failed attempt the scheduler does not try again for half an hour.
  lemma {:induction false} BackoffHolds(plan: Plan, offset: int, a: Asset, events: seq<Event>, j: nat, k: nat)
    requires InOrder(events) && j < k < |events| && Tries(plan, offset, a, events, j) && events[j].error != ""
    requires events[k].now - events[j].started < 1_800_000_000_000
    requires forall i :: j < i <= k ==> !events[i].byHand
    ensures !Tries(plan, offset, a, events, k)
    ensures Before(plan, offset, a, events, k) == Before(plan, offset, a, events, j + 1)
    decreases k
  {
    if k > j + 1 {
      assert events[k - 1].now <= events[k - 1].finished <= events[k].now;
      BackoffHolds(plan, offset, a, events, j, k - 1);
    }
  }
}
