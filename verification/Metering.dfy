/** Whole runs of a user's counter, a sum of sessions that appear and vanish. */
module Metering {
  import opened Wrappers
  import opened Seqs
  import opened Billing
  import opened Counters
  import opened Traffic

  // passed is what has really gone through; baseline and last are its values when the
  // current totals started and when the last sample was taken. gone is what the counters of
  // the sessions that ended since then had shown, and lossy tells whether one has ended
  // since the totals started.
  datatype Tally = Tally(passed: nat, baseline: nat, last: nat, gone: int, lossy: bool)
  {
    function Read(anew: bool): Tally {
      Tally(passed, if anew then passed else baseline, passed, 0, lossy && !anew)
    }

    function Pass(bytes: nat): Tally {
      this.(passed := passed + bytes)
    }

    function End(bytes: int): Tally {
      this.(gone := gone + bytes, lossy := true)
    }
  }

  // The row and the reading, and what the environment knows: the sessions, the bytes, the
  // quota and the reset day in force, and the billing period of the last sample or reset.
  datatype UserWorld = UserWorld(
    counter: Counter, previous: Option<Reading>, sessions: seq<Reading>, up: Tally, down: Tally,
    quota: int, resetDay: int, period: Period)
  {
    // The next sample starts new totals and adds nothing.
    predicate Anew(now: Instant) {
      previous.None? || period != Cycle(BillingPeriod(now, resetDay))
    }
  }

  datatype UserEvent =
    | Connect
    | Transfer(session: nat, upload: nat, download: nat)
    | Disconnect(session: nat)
    | SampleAccount(now: Instant)
    | ResetAccount(clock: Instant)
    | QuotaAccount(quota: int, resetDay: int)

  function Sum(sessions: seq<Reading>): Reading {
    if |sessions| == 0 then Reading(0, 0)
    else
      var rest := Sum(sessions[..|sessions| - 1]);
      var s := sessions[|sessions| - 1];
      Reading(rest.upload + s.upload, rest.download + s.download)
  }

  function UserStep(w: UserWorld, e: UserEvent): UserWorld {
    match e
    case Connect => w.(sessions := w.sessions + [Reading(0, 0)])
    case Transfer(i, u, d) =>
      if i < |w.sessions| then
        var s := w.sessions[i];
        w.(sessions := w.sessions[i := Reading(s.upload + u, s.download + d)],
           up := w.up.Pass(u), down := w.down.Pass(d))
      else w
    case Disconnect(i) =>
      if i < |w.sessions| then
        w.(sessions := w.sessions[..i] + w.sessions[i + 1..],
           up := w.up.End(w.sessions[i].upload), down := w.down.End(w.sessions[i].download))
      else w
    case SampleAccount(now) =>
      // An account without a session is not listed, and so not sampled.
      if |w.sessions| == 0 then w
      else
        var raw := Sum(w.sessions);
        w.(counter := AfterUserSample(w.counter, w.previous, raw, now), previous := Some(raw),
           up := w.up.Read(w.Anew(now)), down := w.down.Read(w.Anew(now)),
           period := Cycle(BillingPeriod(now, w.resetDay)))
    case ResetAccount(clock) =>
      w.(counter := Zeroed(w.counter, clock), previous := None, period := Cycle(BillingPeriod(clock, w.resetDay)))
    case QuotaAccount(quota, resetDay) =>
      if quota >= 0 && 1 <= resetDay <= 28
      then w.(counter := WithUserQuota(w.counter, quota, resetDay), quota := quota, resetDay := resetDay)
      else w
  }

  function UserRun(w: UserWorld, events: seq<UserEvent>): UserWorld {
    if |events| == 0 then w
    else UserStep(UserRun(w, events[..|events| - 1]), events[|events| - 1])
  }

  predicate FreshTally(t: Tally) {
    t.baseline == t.last == t.passed && t.gone == 0 && !t.lossy
  }

  // A row as it is created for an account: no quota, and the first day as reset day.
  predicate FreshUser(w: UserWorld, clock: Instant) {
    && w.counter == NewUser(clock) && w.previous.None? && w.sessions == []
    && FreshTally(w.up) && FreshTally(w.down)
    && w.quota == 0 && w.resetDay == 1 && w.period == Cycle(BillingPeriod(clock, 1))
  }

  // The sum shows the last reading, what has passed since, and not what has gone. Without
  // losses the total is what passed up to the last sample.
  predicate TallySound(t: Tally, sum: int, previous: Option<int>, total: int) {
    && t.baseline <= t.last <= t.passed && sum >= 0 && total >= 0 && t.gone >= 0
    && (previous.None? ==> total == 0)
    && (previous.Some? ==> total <= t.last - t.baseline && sum == previous.value + t.passed - t.last - t.gone)
    && (!t.lossy ==> t.gone == 0 && (previous.Some? ==> total == t.last - t.baseline))
  }

  function UploadOf(previous: Option<Reading>): Option<int> {
    if previous.Some? then Some(previous.value.upload) else None
  }

  function DownloadOf(previous: Option<Reading>): Option<int> {
    if previous.Some? then Some(previous.value.download) else None
  }

  // The row agrees with what the environment knows besides the bytes, and the user is
  // paused exactly when the totals reach the quota.
  predicate UserFlags(w: UserWorld) {
    && w.counter.quota == w.quota && w.counter.resetDay == w.resetDay && w.counter.period == w.period
    && w.counter.paused == w.counter.pausedByQuota
    && (w.counter.paused <==> w.quota > 0 && w.counter.upload + w.counter.download >= w.quota)
  }

  predicate UserSound(w: UserWorld) {
    && w.counter.Valid() && UserFlags(w)
    && TallySound(w.up, Sum(w.sessions).upload, UploadOf(w.previous), w.counter.upload)
    && TallySound(w.down, Sum(w.sessions).download, DownloadOf(w.previous), w.counter.download)
    && forall i :: 0 <= i < |w.sessions| ==> w.sessions[i].upload >= 0 && w.sessions[i].download >= 0
  }

  lemma SumAppend(sessions: seq<Reading>, s: Reading)
    ensures Sum(sessions + [s]) == Reading(Sum(sessions).upload + s.upload, Sum(sessions).download + s.download)
  {
    assert (sessions + [s])[..|sessions|] == sessions;
  }

  lemma {:induction false} SumConcat(left: seq<Reading>, right: seq<Reading>)
    ensures Sum(left + right).upload == Sum(left).upload + Sum(right).upload
    ensures Sum(left + right).download == Sum(left).download + Sum(right).download
    decreases |right|
  {
    if |right| == 0 {
      assert left + right == left;
    } else {
      var n := |right| - 1;
      SumConcat(left, right[..n]);
      assert (left + right)[..|left + right| - 1] == left + right[..n];
    }
  }

  lemma SumMiddle(left: seq<Reading>, s: Reading, right: seq<Reading>)
    ensures Sum(left + [s] + right).upload == Sum(left + right).upload + s.upload
    ensures Sum(left + [s] + right).download == Sum(left + right).download + s.download
  {
    SumConcat(left, right);
    SumConcat(left + [s], right);
    assert (left + [s])[..|left|] == left;
  }

  lemma SumSplit(sessions: seq<Reading>, i: nat)
    requires i < |sessions|
    ensures Sum(sessions).upload == Sum(sessions[..i] + sessions[i + 1..]).upload + sessions[i].upload
    ensures Sum(sessions).download == Sum(sessions[..i] + sessions[i + 1..]).download + sessions[i].download
  {
    Reassemble(sessions, i);
    SumMiddle(sessions[..i], sessions[i], sessions[i + 1..]);
  }

  lemma SumUpdate(sessions: seq<Reading>, i: nat, s: Reading)
    requires i < |sessions|
    ensures Sum(sessions[i := s]).upload == Sum(sessions).upload - sessions[i].upload + s.upload
    ensures Sum(sessions[i := s]).download == Sum(sessions).download - sessions[i].download + s.download
  {
    SumSplit(sessions, i);
    SumSplit(sessions[i := s], i);
    assert sessions[i := s][..i] == sessions[..i] && sessions[i := s][i + 1..] == sessions[i + 1..];
  }

  lemma UserStepSound(w: UserWorld, e: UserEvent)
    requires UserSound(w)
    ensures UserSound(UserStep(w, e))
  {
    match e
    case Connect =>
      assert (w.sessions + [Reading(0, 0)])[..|w.sessions|] == w.sessions;
    case Transfer(i, u, d) =>
      if i < |w.sessions| {
        TransferSound(w, i, u, d);
      }
    case Disconnect(i) =>
      if i < |w.sessions| {
        SumSplit(w.sessions, i);
        SumNonnegative(w.sessions[..i] + w.sessions[i + 1..]);
      }
    case SampleAccount(now) =>
      AccountSampleSound(w, now);
    case _ =>
  }

  lemma TransferSound(w: UserWorld, i: nat, u: nat, d: nat)
    requires UserSound(w) && i < |w.sessions|
    ensures UserSound(UserStep(w, Transfer(i, u, d)))
  {
    var s := w.sessions[i];
    SumUpdate(w.sessions, i, Reading(s.upload + u, s.download + d));
  }

  lemma TallyRead(t: Tally, sum: int, previous: Option<int>, total: int, anew: bool)
    requires TallySound(t, sum, previous, total) && (previous.None? ==> anew)
    ensures TallySound(t.Read(anew), sum, Some(sum), if anew then 0 else total + UserDelta(previous.value, sum))
  {}

  // A sample that starts no new totals accepts what has passed since the last one less
  // what has gone with the sessions that ended, or nothing.
  lemma TallyExact(t: Tally, sum: int, previous: int, total: int)
    requires TallySound(t, sum, Some(previous), total)
    ensures var left := t.passed - t.last - t.gone;
            UserDelta(previous, sum) == if left > 0 then left else 0
  {}

  lemma AccountSampleSound(w: UserWorld, now: Instant)
    requires UserSound(w)
    ensures UserSound(UserStep(w, SampleAccount(now)))
  {
    if |w.sessions| > 0 {
      TallyRead(w.up, Sum(w.sessions).upload, UploadOf(w.previous), w.counter.upload, w.Anew(now));
      TallyRead(w.down, Sum(w.sessions).download, DownloadOf(w.previous), w.counter.download, w.Anew(now));
    }
  }

  lemma {:induction false} SumNonnegative(sessions: seq<Reading>)
    requires forall i :: 0 <= i < |sessions| ==> sessions[i].upload >= 0 && sessions[i].download >= 0
    ensures Sum(sessions).upload >= 0 && Sum(sessions).download >= 0
    decreases |sessions|
  {
    if |sessions| > 0 {
      SumNonnegative(sessions[..|sessions| - 1]);
    }
  }

  lemma {:induction false} UserRunSound(w: UserWorld, clock: Instant, events: seq<UserEvent>)
    requires FreshUser(w, clock)
    ensures UserSound(UserRun(w, events))
    decreases |events|
  {
    if |events| > 0 {
      UserRunSound(w, clock, events[..|events| - 1]);
      UserStepSound(UserRun(w, events[..|events| - 1]), events[|events| - 1]);
    }
  }

  // In every run, a user's totals never exceed the bytes that passed since their
  // baseline, and are the bytes up to the last sample when no session has ended since. The
  // user is paused exactly when the totals reach the quota.
  lemma UserNeverOvercounts(w: UserWorld, clock: Instant, events: seq<UserEvent>)
    requires FreshUser(w, clock)
    ensures var x := UserRun(w, events);
            && x.counter.upload <= x.up.passed - x.up.baseline
            && x.counter.download <= x.down.passed - x.down.baseline
            && (x.previous.Some? && !x.up.lossy ==>
                  x.counter.upload == x.up.last - x.up.baseline
                  && x.counter.download == x.down.last - x.down.baseline)
            && x.counter.paused == x.counter.pausedByQuota
            && (x.counter.paused <==> x.quota > 0 && x.counter.upload + x.counter.download >= x.quota)
  {
    UserRunSound(w, clock, events);
    LossesAgree(w, clock, events);
  }

  // A session ends in both directions.
  lemma {:induction false} LossesAgree(w: UserWorld, clock: Instant, events: seq<UserEvent>)
    requires FreshUser(w, clock)
    ensures UserRun(w, events).up.lossy == UserRun(w, events).down.lossy
    decreases |events|
  {
    if |events| > 0 {
      LossesAgree(w, clock, events[..|events| - 1]);
    }
  }

  // In every state that a run reaches, a sample accepts nothing if it starts new totals;
  // otherwise, in each direction, what has passed since the last sample less what has gone
  // with the sessions that ended since, if that is more than nothing.
  lemma UserSampleExact(w: UserWorld, clock: Instant, events: seq<UserEvent>, now: Instant)
    requires FreshUser(w, clock)
    ensures var x := UserRun(w, events);
            var delta := UserDeltas(x.counter, x.previous, Sum(x.sessions), CurrentPeriod(now, x.counter.resetDay));
            var up, down := x.up.passed - x.up.last - x.up.gone, x.down.passed - x.down.last - x.down.gone;
            delta == if x.Anew(now) then Reading(0, 0)
                     else Reading(if up > 0 then up else 0, if down > 0 then down else 0)
  {
    UserRunSound(w, clock, events);
    var x := UserRun(w, events);
    if !x.Anew(now) {
      TallyExact(x.up, Sum(x.sessions).upload, x.previous.value.upload, x.counter.upload);
      TallyExact(x.down, Sum(x.sessions).download, x.previous.value.download, x.counter.download);
    }
  }

  // What an observer of the verdicts, the quota edits and the resets of a user believes.
  function UserBelieved(flag: bool, w: UserWorld, e: UserEvent): bool {
    match e
    case SampleAccount(_) =>
      (match VerdictOf(w.counter, UserStep(w, e).counter)
       case Unchanged => flag
       case Pause => true
       case Resume => false)
    case ResetAccount(_) => false
    case QuotaAccount(quota, resetDay) =>
      if quota >= 0 && 1 <= resetDay <= 28 then quota > 0 && w.counter.upload + w.counter.download >= quota else flag
    case _ => flag
  }

  function UserReplay(w: UserWorld, events: seq<UserEvent>): bool {
    if |events| == 0 then w.counter.paused
    else
      var n := |events| - 1;
      UserBelieved(UserReplay(w, events[..n]), UserRun(w, events[..n]), events[n])
  }

  lemma UserBeliefStep(w: UserWorld, e: UserEvent)
    requires w.counter.Valid()
    ensures UserBelieved(w.counter.paused, w, e) == UserStep(w, e).counter.paused
  {
    if e.SampleAccount? {
      NodeVerdictIsEdge(w.counter, w.previous, Sum(w.sessions), CurrentPeriod(e.now, w.counter.resetDay));
    }
  }

  // Verdicts, quota edits and resets together reconstruct the paused flag of a user.
  lemma {:induction false} UserReplayReconstructs(w: UserWorld, clock: Instant, events: seq<UserEvent>)
    requires FreshUser(w, clock)
    ensures UserReplay(w, events) == UserRun(w, events).counter.paused
    decreases |events|
  {
    if |events| > 0 {
      var n := |events| - 1;
      UserReplayReconstructs(w, clock, events[..n]);
      UserRunSound(w, clock, events[..n]);
      UserBeliefStep(UserRun(w, events[..n]), events[n]);
    }
  }
}
