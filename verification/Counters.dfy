/** One billing counter: totals, quota and the two pause flags. */
module Counters {
  import opened Wrappers
  import opened Billing

  // The name of the period that a counter is in. A new node starts with the name of
  // the calendar month, which no billing period has.
  datatype Period = Month(year: int, month: int) | Cycle(start: Date)

  datatype Counter = Counter(
    period: Period, upload: int, download: int, quota: int, resetDay: int, paused: bool, pausedByQuota: bool)
  {
    function Total(): int {
      upload + download
    }

    predicate OverQuota() {
      quota > 0 && Total() >= quota
    }

    // Paused by hand: the pause that only a hand, a reset or a resume lifts.
    predicate ManuallyPaused() {
      paused && !pausedByQuota
    }

    predicate Valid() {
      upload >= 0 && download >= 0 && quota >= 0 && (pausedByQuota ==> paused)
    }
  }

  datatype Verdict = Unchanged | Pause | Resume

  // The change of the paused flag.
  function Edge(before: bool, after: bool): Verdict {
    if before == after then Unchanged else if after then Pause else Resume
  }

  datatype Reading = Reading(upload: int, download: int)

  datatype SampleResult = SampleResult(
    deltaUpload: int, deltaDownload: int, totalUpload: int, totalDownload: int, verdict: Verdict, paused: bool)

  function CurrentPeriod(now: Instant, resetDay: int): Period {
    Cycle(BillingPeriod(now, resetDay))
  }

  // The counter after a sample that adds the deltas in the given period: a new
  // period starts from zero, a pause by hand stays, and the quota alone decides
  // about everything else.
  function Sampled(c: Counter, period: Period, upload: int, download: int): Counter {
    var base := if c.period == period then c else c.(upload := 0, download := 0);
    var totals := base.(period := period, upload := base.upload + upload, download := base.download + download);
    totals.(paused := c.ManuallyPaused() || totals.OverQuota(),
            pausedByQuota := !c.ManuallyPaused() && totals.OverQuota())
  }

  // What the sampler reports. Only a new period in which the delta alone exceeds the
  // quota makes this differ from the edge of the flag.
  function VerdictOf(c: Counter, after: Counter): Verdict {
    if c.pausedByQuota && c.period != after.period && after.OverQuota() then Pause else Edge(c.paused, after.paused)
  }

  // The sampler's updates, step by step as the stores write them.
  method ApplySample(before: Counter, period: Period, upload: int, download: int)
    returns (counter: Counter, verdict: Verdict)
    requires before.Valid() && upload >= 0 && download >= 0
    ensures counter == Sampled(before, period, upload, download) && counter.Valid()
    ensures verdict == VerdictOf(before, counter)
  {
    counter := before;
    verdict := Unchanged;
    if counter.period != period {
      counter := counter.(period := period, upload := 0, download := 0);
      if counter.pausedByQuota {
        counter := counter.(paused := false, pausedByQuota := false);
        verdict := Resume;
      }
    }
    counter := counter.(upload := counter.upload + upload, download := counter.download + download);
    if counter.pausedByQuota && (counter.quota == 0 || counter.upload + counter.download < counter.quota) {
      counter := counter.(paused := false, pausedByQuota := false);
      verdict := Resume;
    } else if counter.quota > 0 && counter.upload + counter.download >= counter.quota && !counter.paused {
      counter := counter.(paused := true, pausedByQuota := true);
      verdict := Pause;
    }
  }

  // The bytes a node sample adds: a counter below the previous one has restarted.
  function NodeDelta(previous: int, raw: int): int {
    if raw - previous < 0 then raw else raw - previous
  }

  // The bytes a user sample adds: a sum below the previous one has lost a session.
  function UserDelta(previous: int, raw: int): int {
    if raw >= previous then raw - previous else 0
  }

  // A previous reading counts only within its own period.
  function NodeDeltas(c: Counter, previous: Option<Reading>, raw: Reading, period: Period): Reading {
    if c.period == period && previous.Some? then
      Reading(NodeDelta(previous.value.upload, raw.upload), NodeDelta(previous.value.download, raw.download))
    else Reading(0, 0)
  }

  function UserDeltas(c: Counter, previous: Option<Reading>, raw: Reading, period: Period): Reading {
    if c.period == period && previous.Some? then
      Reading(UserDelta(previous.value.upload, raw.upload), UserDelta(previous.value.download, raw.download))
    else Reading(0, 0)
  }

  // ----- What the flags mean

  // Sampling never clears a pause by hand, and afterwards the counter is paused
  // exactly when it is paused by hand or over its quota.
  lemma SampledFlags(c: Counter, period: Period, upload: int, download: int)
    requires c.Valid() && upload >= 0 && download >= 0
    ensures var d := Sampled(c, period, upload, download);
            && d.Valid() && d.quota == c.quota && d.resetDay == c.resetDay
            && (d.paused && !d.pausedByQuota <==> c.paused && !c.pausedByQuota)
            && (d.paused <==> (c.paused && !c.pausedByQuota) || (c.quota > 0 && d.upload + d.download >= c.quota))
  {}

  // The verdict is the edge of the flag except when a new period begins while the
  // quota had paused the counter and the new delta alone exceeds the quota.
  lemma VerdictIsEdge(c: Counter, period: Period, upload: int, download: int)
    requires c.Valid() && upload >= 0 && download >= 0
    ensures var d := Sampled(c, period, upload, download);
            (VerdictOf(c, d) == Edge(c.paused, d.paused)
             <==> !(c.pausedByQuota && c.period != period && c.quota > 0 && upload + download >= c.quota))
  {}

  // An empty verdict always means that the flag has not changed.
  lemma EmptyVerdictKeepsFlag(c: Counter, period: Period, upload: int, download: int)
    requires c.Valid() && upload >= 0 && download >= 0
    ensures var d := Sampled(c, period, upload, download);
            VerdictOf(c, d) == Unchanged ==> d.paused == c.paused
  {}

  // Node and user samples add nothing in the sample that starts a period, so their
  // verdicts are the edges of the flag without exception.
  lemma NodeVerdictIsEdge(c: Counter, previous: Option<Reading>, raw: Reading, period: Period)
    requires c.Valid()
    ensures var delta := NodeDeltas(c, previous, raw, period);
            var d := Sampled(c, period, delta.upload, delta.download);
            VerdictOf(c, d) == Edge(c.paused, d.paused)
    ensures var delta := UserDeltas(c, previous, raw, period);
            var d := Sampled(c, period, delta.upload, delta.download);
            VerdictOf(c, d) == Edge(c.paused, d.paused)
  {}
}
